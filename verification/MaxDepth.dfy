/**
 The depth limit: a second Kahn pass that measures, for every step, the longest chain of
 dependencies that ends there.
 */
module MaxDepth {
  import opened Common
  import opened DepGraph
  import opened Kahn

  const MAX_DEPTH: nat := 20

  // ---- Chains and their lengths ----

  ghost predicate ChainTo(g: Graph, p: seq<Id>, n: Id) {
    |p| > 0 && p[|p|-1] == n && IsPath(g, p)
  }

  ghost predicate ChainOfLength(g: Graph, n: Id, k: nat) {
    exists p :: ChainTo(g, p, n) && |p| == k
  }

  /** The longest dependency chain that ends at n has `edges` edges. */
  ghost predicate IsLongest(g: Graph, n: Id, edges: nat) {
    ChainOfLength(g, n, edges + 1) && forall p :: ChainTo(g, p, n) ==> |p| <= edges + 1
  }

  ghost predicate Supports(g: Graph, depth: map<Id, nat>, d: Id, n: Id) {
    Edge(g, d, n) && d in depth && n in depth && depth[d] + 1 == depth[n]
  }

  ghost predicate DepthAt(g: Graph, depth: map<Id, nat>, n: Id) {
    && n in depth
    && (forall d :: Edge(g, d, n) ==> d in depth && depth[d] + 1 <= depth[n])
    && (depth[n] == 0 || exists d :: Supports(g, depth, d, n))
  }

  /**
   Local form of exact depths, on a set of nodes that contains all dependencies of its members: each
   depth is one more than the greatest among the dependencies.
   */
  ghost predicate DepthMap(g: Graph, depth: map<Id, nat>, done: set<Id>) {
    forall n :: n in done ==> n in g.deps && DepthAt(g, depth, n) && forall d :: Edge(g, d, n) ==> d in done
  }

  lemma {:induction false} ChainIsBounded(g: Graph, depth: map<Id, nat>, done: set<Id>, p: seq<Id>, n: Id)
    requires DepthMap(g, depth, done) && n in done && ChainTo(g, p, n)
    ensures DepthAt(g, depth, n) && |p| <= depth[n] + 1
    decreases |p|
  {
    if |p| > 1 {
      var d := p[|p|-2];
      assert Edge(g, d, n);
      SubPath(g, p, 0, |p| - 1);
      ChainIsBounded(g, depth, done, p[..|p|-1], d);
    }
  }

  lemma {:induction false} ChainIsAttained(g: Graph, depth: map<Id, nat>, done: set<Id>, n: Id) returns (p: seq<Id>)
    requires DepthMap(g, depth, done) && n in done
    ensures DepthAt(g, depth, n) && ChainTo(g, p, n) && |p| == depth[n] + 1 && Elems(p) <= done
    decreases if n in depth then depth[n] else 0
  {
    if depth[n] == 0 {
      p := [n];
    } else {
      var d :| Supports(g, depth, d, n);
      var q := ChainIsAttained(g, depth, done, d);
      AppendPath(g, q, n);
      p := q + [n];
    }
  }

  lemma DepthMapIsLongest(g: Graph, depth: map<Id, nat>, done: set<Id>, n: Id)
    requires DepthMap(g, depth, done) && n in done
    ensures n in depth && IsLongest(g, n, depth[n])
  {
    var p := ChainIsAttained(g, depth, done, n);
    forall q | ChainTo(g, q, n) ensures |q| <= depth[n] + 1 {
      ChainIsBounded(g, depth, done, q, n);
    }
  }

  // ---- The pass ----

  ghost predicate ReachedBy(g: Graph, out: seq<Id>, n: Id) {
    exists d :: d in out && Edge(g, d, n)
  }

  ghost predicate SupportedBy(g: Graph, out: seq<Id>, depth: map<Id, nat>, n: Id) {
    exists d :: d in out && Supports(g, depth, d, n)
  }

  ghost predicate MeasuredAt(g: Graph, out: seq<Id>, depth: map<Id, nat>, n: Id) {
    && (n in depth <==> n in g.deps && (g.deps[n] == [] || ReachedBy(g, out, n)))
    && (n in depth ==> depth[n] == 0 || SupportedBy(g, out, depth, n))
    && (n in depth ==> forall d :: d in out && Edge(g, d, n) ==> d in depth && depth[d] + 1 <= depth[n])
  }

  /** Depths take account of exactly the dependencies that have left the queue. */
  ghost predicate Measured(g: Graph, out: seq<Id>, depth: map<Id, nat>) {
    forall n :: MeasuredAt(g, out, depth, n)
  }

  function DepthOr0(depth: map<Id, nat>, n: Id): nat {
    if n in depth then depth[n] else 0
  }

  /** The depths after each listed child has been pushed down to at least `d`. */
  ghost function Deepened(depth: map<Id, nat>, kids: seq<Id>, d: nat): map<Id, nat> {
    map c | c in depth.Keys + Elems(kids) :: if c in kids then MaxNat(DepthOr0(depth, c), d) else depth[c]
  }

  lemma DeepenedNone(depth: map<Id, nat>, d: nat)
    ensures Deepened(depth, [], d) == depth
  {
  }

  lemma DeepenedKeeps(depth: map<Id, nat>, kids: seq<Id>, d: nat, n: Id)
    requires n in depth && n !in kids
    ensures n in Deepened(depth, kids, d) && Deepened(depth, kids, d)[n] == depth[n]
  {
  }

  lemma DeepenedOneMore(depth: map<Id, nat>, kids: seq<Id>, j: nat, d: nat)
    requires j < |kids|
    ensures Deepened(depth, kids[..j+1], d) ==
            Deepened(depth, kids[..j], d)[kids[j] := MaxNat(DepthOr0(Deepened(depth, kids[..j], d), kids[j]), d)]
  {
    assert kids[..j+1] == kids[..j] + [kids[j]];
    assert forall c :: c in kids[..j+1] <==> c in kids[..j] || c == kids[j];
  }

  lemma SeenHasDepth(g: Graph, out: seq<Id>, f: Frontier, depth: map<Id, nat>, n: Id)
    requires Sorting(g, out, f) && Measured(g, out, depth) && n in out + f.queue
    ensures n in depth && n in g.deps && forall d :: d in g.deps[n] ==> d in out
  {
    assert f.deg[n] == 0;
    OpenZero(g.deps[n], Elems(out));
    assert MeasuredAt(g, out, depth, n);
    if g.deps[n] != [] {
      assert Edge(g, g.deps[n][0], n);
    }
  }

  /** A child of the popped node has not been seen yet, so no settled depth changes. */
  lemma ChildIsUnseen(g: Graph, out: seq<Id>, f: Frontier, depth: map<Id, nat>, c: Id)
    requires Sorting(g, out, f) && Measured(g, out, depth) && f.queue != [] && Edge(g, f.queue[0], c)
    ensures c !in out && c !in f.queue
  {
    HeadIsReady(g, out, f);
    if c in out + f.queue {
      SeenHasDepth(g, out, f, depth, c);
      assert false;
    }
    assert c !in out + f.queue;
  }

  lemma MeasuredStep(g: Graph, out: seq<Id>, f: Frontier, depth: map<Id, nat>, after: map<Id, nat>, n: Id)
    requires Sorting(g, out, f) && Measured(g, out, depth) && f.queue != [] && f.queue[0] in depth
    requires after == Deepened(depth, Children(g, f.queue[0]), depth[f.queue[0]] + 1)
    ensures MeasuredAt(g, out + [f.queue[0]], after, n)
  {
    var x := f.queue[0];
    var o := out + [x];
    assert MeasuredAt(g, out, depth, n);
    ChildrenCount(g, x, n);
    HeadIsReady(g, out, f);
    forall d | d in o ensures d in depth && d in after && after[d] == depth[d] {
      assert d in out + f.queue;
      SeenHasDepth(g, out, f, depth, d);
      ChildrenCount(g, x, d);
      if Edge(g, x, d) {
        ChildIsUnseen(g, out, f, depth, d);
      }
    }
    if Edge(g, x, n) {
      assert ReachedBy(g, o, n);
      if after[n] == depth[x] + 1 {
        assert Supports(g, after, x, n);
      } else {
        var d :| d in out && Supports(g, depth, d, n);
        assert Supports(g, after, d, n);
      }
    } else {
      assert ReachedBy(g, o, n) <==> ReachedBy(g, out, n);
      if n in depth && depth[n] != 0 {
        var d :| d in out && Supports(g, depth, d, n);
        assert Supports(g, after, d, n);
      }
    }
  }

  /** When the queue is empty, the depths of the nodes that have left it are exact, whatever the graph. */
  lemma MeasuredAtEnd(g: Graph, out: seq<Id>, f: Frontier, depth: map<Id, nat>)
    requires Sorting(g, out, f) && f.queue == [] && Measured(g, out, depth)
    ensures DepthMap(g, depth, Elems(out))
  {
    assert out + f.queue == out;
    forall n | n in Elems(out) ensures n in g.deps && DepthAt(g, depth, n) && forall d :: Edge(g, d, n) ==> d in Elems(out) {
      assert n in out + f.queue;
      SeenHasDepth(g, out, f, depth, n);
      assert MeasuredAt(g, out, depth, n);
    }
  }

  lemma MeasuredStarts(g: Graph)
    requires WellFormed(g)
    ensures Measured(g, [], map n | n in Roots(g.nodes, g.deps) :: 0)
  {
    NodesAreKeys(g);
    RootsAre(g.nodes, g.deps);
  }

  method BuildInDegrees(g: Graph) returns (inDegree: map<Id, int>)
    requires WellFormed(g)
    ensures inDegree == InDegrees(g)
  {
    NodesAreKeys(g);
    inDegree := map n | n in g.deps :: 0;
    var i := 0;
    while i < |g.nodes|
      invariant 0 <= i <= |g.nodes| && inDegree.Keys == g.deps.Keys
      invariant forall k :: 0 <= k < |g.nodes| ==> inDegree[g.nodes[k]] == if k < i then |g.deps[g.nodes[k]]| else 0
    {
      inDegree := CountMentions(inDegree, g.nodes[i], g.deps[g.nodes[i]]);
      i := i + 1;
    }
    forall n | n in g.deps ensures inDegree[n] == |g.deps[n]| {
      assert n in g.nodes;
    }
  }

  /** The loop over the children of the popped node. */
  method PushDown(g: Graph, current: Id, kids: seq<Id>, depth0: map<Id, nat>, ghost f0: Frontier,
                  inDegree0: map<Id, int>, queue0: seq<Id>)
    returns (depth: map<Id, nat>, inDegree: map<Id, int>, queue: seq<Id>)
    requires current in depth0 && current !in kids
    requires f0 == Frontier(inDegree0, queue0) && Covers(f0, kids)
    ensures depth == Deepened(depth0, kids, depth0[current] + 1)
    ensures Frontier(inDegree, queue) == Relax(kids, f0)
  {
    hide Deepened;
    depth, inDegree, queue := depth0, inDegree0, queue0;
    DeepenedNone(depth0, depth0[current] + 1);
    var j := 0;
    while j < |kids|
      invariant 0 <= j <= |kids|
      invariant depth == Deepened(depth0, kids[..j], depth0[current] + 1)
      invariant Frontier(inDegree, queue) == Relax(kids[..j], f0)
    {
      var child := kids[j];
      assert kids[..j+1][..j] == kids[..j];
      DeepenedOneMore(depth0, kids, j, depth0[current] + 1);
      DeepenedKeeps(depth0, kids[..j], depth0[current] + 1, current);
      var newDepth := depth[current] + 1;
      depth := depth[child := MaxNat(DepthOr0(depth, child), newDepth)];
      inDegree, queue := DecrementChild(inDegree, queue, child);
      j := j + 1;
    }
    assert kids[..|kids|] == kids;
  }

  /** The main loop: pops nodes in Kahn order and pushes their children down. */
  method RunPass(g: Graph, forward: map<Id, seq<Id>>, inDegree0: map<Id, int>, queue0: seq<Id>, depth0: map<Id, nat>)
    returns (depth: map<Id, nat>, pops: seq<Id>)
    requires WellFormed(g) && (forall n :: Get(forward, n) == Children(g, n))
    requires Frontier(inDegree0, queue0) == Start(g) && Measured(g, [], depth0)
    ensures pops == KahnOrder(g) && Measured(g, pops, depth)
  {
    var inDegree, queue := inDegree0, queue0;
    depth, pops := depth0, [];
    SortingStarts(g);
    assert [] + KahnOrder(g) == KahnOrder(g);
    while queue != []
      invariant Sorting(g, pops, Frontier(inDegree, queue))
      invariant Measured(g, pops, depth)
      invariant pops + KahnFrom(g, Frontier(inDegree, queue)) == KahnOrder(g)
      decreases Work(Frontier(inDegree, queue))
    {
      ghost var f := Frontier(inDegree, queue);
      var current := queue[0];
      HeadHasDepth(g, pops, f, depth);
      SortingStep(g, pops, f);
      OrderUnfolds(g, pops, f);
      var kids := Get(forward, current);
      assert kids == Children(g, current);
      ghost var after := Deepened(depth, kids, depth[current] + 1);
      DeepenKeepsMeasured(g, pops, f, depth, current, after);
      depth, inDegree, queue := PushDown(g, current, kids, depth, f.(queue := queue[1..]), inDegree, queue[1..]);
      pops := pops + [current];
    }
  }

  // ---- Chains that the pass can follow ----

  /** A chain to n all of whose earlier steps are in the given set. */
  ghost predicate ChainThrough(g: Graph, done: set<Id>, p: seq<Id>, n: Id) {
    ChainTo(g, p, n) && Elems(p[..|p|-1]) <= done
  }

  ghost predicate LongestThrough(g: Graph, done: set<Id>, n: Id, edges: nat) {
    && (exists p :: ChainThrough(g, done, p, n) && |p| == edges + 1)
    && forall p :: ChainThrough(g, done, p, n) ==> |p| <= edges + 1
  }

  /** The nodes whose depth the pass settles: those that the sort lists. */
  ghost function Sorted(g: Graph): set<Id>
    requires WellFormed(g)
  {
    Elems(KahnOrder(g))
  }

  /** Any graph: what the pass leaves for a node is the longest chain that reaches it through sorted nodes. */
  lemma MeasuredIsLongest(g: Graph, depth: map<Id, nat>, n: Id)
    requires WellFormed(g) && Measured(g, KahnOrder(g), depth) && DepthMap(g, depth, Sorted(g)) && n in depth
    ensures n in g.deps && LongestThrough(g, Sorted(g), n, depth[n])
  {
    var out, done := KahnOrder(g), Sorted(g);
    assert MeasuredAt(g, out, depth, n);
    if depth[n] == 0 {
      assert ChainThrough(g, done, [n], n);
    } else {
      var d :| d in out && Supports(g, depth, d, n);
      var q := ChainIsAttained(g, depth, done, d);
      AppendPath(g, q, n);
      assert (q + [n])[..|q|] == q;
      assert ChainThrough(g, done, q + [n], n);
    }
    forall p | ChainThrough(g, done, p, n) ensures |p| <= depth[n] + 1 {
      if |p| > 1 {
        LastStep(g, done, p, n);
        ChainIsBounded(g, depth, done, p[..|p|-1], p[|p|-2]);
      }
    }
  }

  lemma LastStep(g: Graph, done: set<Id>, p: seq<Id>, n: Id)
    requires ChainThrough(g, done, p, n) && |p| > 1
    ensures p[|p|-2] in done && Edge(g, p[|p|-2], n) && ChainTo(g, p[..|p|-1], p[|p|-2])
  {
    SubPath(g, p, 0, |p| - 1);
    assert p[..|p|-1][|p|-2] == p[|p|-2];
    assert p[|p|-2] in Elems(p[..|p|-1]);
    assert Edge(g, p[|p|-2], p[|p|-1]);
  }

  /** A node without a depth depends on unsorted nodes only, so no chain reaches it through sorted ones. */
  lemma UnmeasuredIsUnreached(g: Graph, depth: map<Id, nat>, p: seq<Id>, n: Id)
    requires WellFormed(g) && Measured(g, KahnOrder(g), depth) && n in g.deps && n !in depth
    requires ChainThrough(g, Sorted(g), p, n)
    ensures |p| == 1
  {
    assert MeasuredAt(g, KahnOrder(g), depth, n);
    if |p| > 1 {
      LastStep(g, Sorted(g), p, n);
      assert ReachedBy(g, KahnOrder(g), n);
      assert false;
    }
  }

  /** Every node that is sorted has the exact length of the longest chain ending there. */
  method ComputeDepths(g: Graph) returns (depth: map<Id, nat>, pops: seq<Id>)
    requires WellFormed(g)
    ensures pops == KahnOrder(g)
    ensures forall n :: n in pops ==> n in depth && IsLongest(g, n, depth[n])
    ensures forall n :: n in depth ==> n in g.deps && LongestThrough(g, Sorted(g), n, depth[n])
    ensures forall n, p :: n in g.deps && n !in depth && ChainThrough(g, Sorted(g), p, n) ==> |p| == 1
  {
    var forward := BuildChildren(g);
    var inDegree := BuildInDegrees(g);
    var queue := InitialQueue(g, g.nodes, inDegree);
    MeasuredStarts(g);
    depth, pops := RunPass(g, forward, inDegree, queue, map n | n in queue :: 0);
    DepthsAreLongest(g, depth);
  }

  lemma DepthsAreLongest(g: Graph, depth: map<Id, nat>)
    requires WellFormed(g) && Measured(g, KahnOrder(g), depth)
    ensures forall n :: n in KahnOrder(g) ==> n in depth && IsLongest(g, n, depth[n])
    ensures forall n :: n in depth ==> n in g.deps && LongestThrough(g, Sorted(g), n, depth[n])
    ensures forall n, p :: n in g.deps && n !in depth && ChainThrough(g, Sorted(g), p, n) ==> |p| == 1
  {
    hide *;
    var f := OrderSorting(g);
    MeasuredAtEnd(g, KahnOrder(g), f, depth);
    SortedAreListed(g);
    forall n | n in KahnOrder(g) ensures n in depth && IsLongest(g, n, depth[n]) {
      DepthMapIsLongest(g, depth, Sorted(g), n);
    }
    forall n | n in depth ensures n in g.deps && LongestThrough(g, Sorted(g), n, depth[n]) {
      MeasuredIsLongest(g, depth, n);
    }
    forall n, p | n in g.deps && n !in depth && ChainThrough(g, Sorted(g), p, n) ensures |p| == 1 {
      UnmeasuredIsUnreached(g, depth, p, n);
    }
  }

  lemma SortedAreListed(g: Graph)
    requires WellFormed(g)
    ensures Sorted(g) == Elems(KahnOrder(g)) && forall n :: n in Sorted(g) <==> n in KahnOrder(g)
  {
  }

  lemma HeadHasDepth(g: Graph, out: seq<Id>, f: Frontier, depth: map<Id, nat>)
    requires Sorting(g, out, f) && Measured(g, out, depth) && f.queue != []
    ensures f.queue[0] in depth && f.queue[0] !in Children(g, f.queue[0])
    ensures Covers(f.(queue := f.queue[1..]), Children(g, f.queue[0]))
  {
    var x := f.queue[0];
    assert x in out + f.queue;
    SeenHasDepth(g, out, f, depth, x);
    ChildrenCount(g, x, x);
    if Edge(g, x, x) {
      ChildIsUnseen(g, out, f, depth, x);
    }
    ChildrenCovered(g, x, f.(queue := f.queue[1..]));
  }

  lemma DeepenKeepsMeasured(g: Graph, out: seq<Id>, f: Frontier, depth: map<Id, nat>, x: Id, after: map<Id, nat>)
    requires Sorting(g, out, f) && Measured(g, out, depth) && f.queue != [] && f.queue[0] == x
    requires x in depth && after == Deepened(depth, Children(g, x), depth[x] + 1)
    ensures Measured(g, out + [x], after)
  {
    forall n ensures MeasuredAt(g, out + [x], after, n) {
      MeasuredStep(g, out, f, depth, after, n);
    }
  }

  method MaxValue(g: Graph, depth: map<Id, nat>) returns (most: nat)
    requires WellFormed(g) && forall n :: n in depth ==> n in g.deps
    ensures forall n :: n in depth ==> depth[n] <= most
    ensures most == 0 || exists n :: n in depth && depth[n] == most
  {
    NodesAreKeys(g);
    most := 0;
    var i := 0;
    while i < |g.nodes|
      invariant 0 <= i <= |g.nodes|
      invariant forall k :: 0 <= k < i && g.nodes[k] in depth ==> depth[g.nodes[k]] <= most
      invariant most == 0 || exists n :: n in depth && depth[n] == most
    {
      if g.nodes[i] in depth && depth[g.nodes[i]] > most {
        most := depth[g.nodes[i]];
      }
      i := i + 1;
    }
    forall n | n in depth ensures depth[n] <= most {
      assert n in g.nodes;
    }
  }

  // ---- The limit ----

  /** Some step stands at the end of a dependency chain of more than MAX_DEPTH steps. */
  ghost predicate TooDeep(g: Graph) {
    exists n, k :: n in g.deps && k > MAX_DEPTH && ChainOfLength(g, n, k)
  }

  /** The longest dependency chain of the graph has k steps. */
  ghost predicate LongestChain(g: Graph, k: nat) {
    && (exists n :: n in g.deps && ChainOfLength(g, n, k))
    && (forall n, j: nat :: n in g.deps && ChainOfLength(g, n, j) ==> j <= k)
  }

  /** The same with chains whose steps, up to the last one, the sort lists: all that the pass can see. */
  ghost predicate SeenChain(g: Graph, p: seq<Id>)
    requires WellFormed(g)
  {
    p != [] && p[|p|-1] in g.deps && ChainThrough(g, Sorted(g), p, p[|p|-1])
  }

  ghost predicate SeenTooDeep(g: Graph)
    requires WellFormed(g)
  {
    exists p :: SeenChain(g, p) && |p| > MAX_DEPTH
  }

  ghost predicate LongestSeen(g: Graph, k: nat)
    requires WellFormed(g)
  {
    (exists p :: SeenChain(g, p) && |p| == k) && forall p :: SeenChain(g, p) ==> |p| <= k
  }

  lemma MostIsDeepest(g: Graph, depth: map<Id, nat>, most: nat)
    requires WellFormed(g) && most > 0
    requires forall n :: n in depth ==> n in g.deps && LongestThrough(g, Sorted(g), n, depth[n])
    requires forall n, p :: n in g.deps && n !in depth && ChainThrough(g, Sorted(g), p, n) ==> |p| == 1
    requires (forall n :: n in depth ==> depth[n] <= most) && exists n :: n in depth && depth[n] == most
    ensures LongestSeen(g, most + 1)
  {
    var n :| n in depth && depth[n] == most;
    var p :| ChainThrough(g, Sorted(g), p, n) && |p| == most + 1;
    assert SeenChain(g, p);
    forall q | SeenChain(g, q) ensures |q| <= most + 1 {
      var m := q[|q|-1];
      if m in depth {
        assert LongestThrough(g, Sorted(g), m, depth[m]);
      }
    }
  }

  lemma NoneIsShallow(g: Graph, depth: map<Id, nat>)
    requires WellFormed(g)
    requires forall n :: n in depth ==> n in g.deps && LongestThrough(g, Sorted(g), n, depth[n]) && depth[n] == 0
    requires forall n, p :: n in g.deps && n !in depth && ChainThrough(g, Sorted(g), p, n) ==> |p| == 1
    ensures forall p :: SeenChain(g, p) ==> |p| <= 1
  {
    forall q | SeenChain(g, q) ensures |q| <= 1 {
      var m := q[|q|-1];
      if m in depth {
        assert LongestThrough(g, Sorted(g), m, depth[m]);
      }
    }
  }

  /** On closed acyclic graphs the pass sees every chain. */
  lemma AllChainsAreSeen(g: Graph)
    requires WellFormed(g) && Closed(g) && Acyclic(g)
    ensures forall n, p :: n in g.deps && ChainTo(g, p, n) ==> SeenChain(g, p)
    ensures SeenTooDeep(g) <==> TooDeep(g)
    ensures forall k: nat :: LongestSeen(g, k) ==> LongestChain(g, k)
  {
    OrderIsCompleteIffAcyclic(g);
    forall n, p | n in g.deps && ChainTo(g, p, n) ensures SeenChain(g, p) {
      forall d | d in p[..|p|-1] ensures d in Sorted(g) {
        var i :| 0 <= i < |p| - 1 && p[i] == d;
        assert Edge(g, p[i], p[i + 1]);
      }
    }
    if TooDeep(g) {
      var n, k :| n in g.deps && k > MAX_DEPTH && ChainOfLength(g, n, k);
      var p :| ChainTo(g, p, n) && |p| == k;
      assert SeenChain(g, p);
    }
    SeenIsTooDeep(g);
    forall k: nat | LongestSeen(g, k) ensures LongestChain(g, k) {
      SeenIsLongest(g, k);
    }
  }

  lemma SeenIsTooDeep(g: Graph)
    requires WellFormed(g)
    ensures SeenTooDeep(g) ==> TooDeep(g)
  {
    if SeenTooDeep(g) {
      var p :| SeenChain(g, p) && |p| > MAX_DEPTH;
      assert ChainOfLength(g, p[|p|-1], |p|);
    }
  }

  lemma SeenIsLongest(g: Graph, k: nat)
    requires WellFormed(g) && LongestSeen(g, k)
    requires forall n, p :: n in g.deps && ChainTo(g, p, n) ==> SeenChain(g, p)
    ensures LongestChain(g, k)
  {
    var p :| SeenChain(g, p) && |p| == k;
    assert ChainOfLength(g, p[|p|-1], k);
    forall n, j: nat | n in g.deps && ChainOfLength(g, n, j) ensures j <= k {
      var q :| ChainTo(g, q, n) && |q| == j;
      assert SeenChain(g, q);
    }
  }

  /**
   On every graph: raises exactly when some chain that the pass can follow has more than MAX_DEPTH steps,
   and reports the number of steps of the longest one. On closed acyclic graphs these are all chains.
   */
  method ValidateMaxDepth(g: Graph) returns (exceeded: Option<nat>)
    requires WellFormed(g)
    ensures exceeded.Some? <==> SeenTooDeep(g)
    ensures exceeded.Some? ==> exceeded.value > MAX_DEPTH && LongestSeen(g, exceeded.value)
    ensures Closed(g) && Acyclic(g) ==> (exceeded.Some? <==> TooDeep(g))
    ensures Closed(g) && Acyclic(g) && exceeded.Some? ==> LongestChain(g, exceeded.value)
  {
    var depth, pops := ComputeDepths(g);
    var maxFound := MaxValue(g, depth);
    if maxFound > 0 {
      MostIsDeepest(g, depth, maxFound);
    } else {
      NoneIsShallow(g, depth);
    }
    exceeded := if maxFound >= MAX_DEPTH then Some(maxFound + 1) else None;
    if Closed(g) && Acyclic(g) {
      AllChainsAreSeen(g);
    }
  }
}
