/** The FIFO queue releases steps level by level: the order never goes back to a smaller depth. */
module Levels {
  import opened Common
  import opened DepGraph
  import opened Kahn
  import opened MaxDepth

  ghost predicate NonDecreasing(depth: map<Id, nat>, s: seq<Id>) {
    && (forall n :: n in s ==> n in depth)
    && forall i, j :: 0 <= i < j < |s| ==> depth[s[i]] <= depth[s[j]]
  }

  ghost predicate WithinOneLevel(depth: map<Id, nat>, queue: seq<Id>) {
    && (forall n :: n in queue ==> n in depth)
    && forall n :: n in queue ==> depth[n] <= depth[queue[0]] + 1
  }

  lemma HeadIsDeepest(depth: map<Id, nat>, out: seq<Id>, queue: seq<Id>, d: Id)
    requires queue != [] && NonDecreasing(depth, out + queue) && d in out + [queue[0]]
    ensures d in depth && depth[d] <= depth[queue[0]]
  {
    var s := out + queue;
    var i :| 0 <= i < |out| + 1 && (out + [queue[0]])[i] == d;
    assert s[i] == d && s[|out|] == queue[0];
    assert d in s && queue[0] in s;
  }

  /** A node that joins the queue lies exactly one level below the popped one. */
  lemma PushedDepth(g: Graph, depth: map<Id, nat>, done: set<Id>, out: seq<Id>, f: Frontier, n: Id)
    requires Sorting(g, out, f) && f.queue != [] && DepthMap(g, depth, done)
    requires NonDecreasing(depth, out + f.queue)
    requires n in done && n in g.deps && Pop(g, f).deg[n] == 0 && Edge(g, f.queue[0], n)
    ensures n in depth && depth[n] == depth[f.queue[0]] + 1
  {
    hide Sorting, Pop;
    ReleasedIsReady(g, out, f, n);
    assert DepthAt(g, depth, n);
    var d :| Supports(g, depth, d, n);
    assert d in g.deps[n];
    HeadIsDeepest(depth, out, f.queue, d);
  }

  lemma AppendNonDecreasing(depth: map<Id, nat>, s: seq<Id>, pushed: seq<Id>, d: nat)
    requires NonDecreasing(depth, s)
    requires forall n :: n in s ==> depth[n] <= d
    requires forall n :: n in pushed ==> n in depth && depth[n] == d
    ensures NonDecreasing(depth, s + pushed)
  {
    var t := s + pushed;
    forall i, j | 0 <= i < j < |t| ensures depth[t[i]] <= depth[t[j]] {
      assert i < |s| ==> t[i] in s;
      assert i >= |s| ==> t[i] in pushed;
      assert j >= |s| ==> t[j] in pushed;
    }
  }

  lemma QueueTail(depth: map<Id, nat>, out: seq<Id>, queue: seq<Id>, pushed: seq<Id>)
    requires queue != [] && NonDecreasing(depth, out + queue) && WithinOneLevel(depth, queue)
    requires forall n :: n in pushed ==> n in depth && depth[n] == depth[queue[0]] + 1
    ensures WithinOneLevel(depth, queue[1..] + pushed)
  {
    var q := queue[1..] + pushed;
    var s := out + queue;
    forall n | n in q ensures n in depth && depth[n] <= depth[queue[0]] + 1 {
      assert n in queue[1..] || n in pushed;
    }
    if q != [] && |queue| > 1 {
      assert s[|out|] == queue[0] && s[|out| + 1] == queue[1] == q[0];
    }
  }

  /** Whatever is in the queue will be listed. */
  lemma {:induction false} QueueIsListed(g: Graph, out: seq<Id>, f: Frontier)
    requires Sorting(g, out, f)
    ensures forall n :: n in f.queue ==> n in KahnFrom(g, f)
    decreases Work(f)
  {
    if f.queue != [] {
      var pushed := PopQueue(g, out, f);
      SortingStep(g, out, f);
      QueueIsListed(g, out + [f.queue[0]], Pop(g, f));
      forall n | n in f.queue ensures n in KahnFrom(g, f) {
        assert n == f.queue[0] || n in f.queue[1..];
      }
    }
  }

  lemma {:induction false} LevelsFrom(g: Graph, depth: map<Id, nat>, done: set<Id>, out: seq<Id>, f: Frontier)
    requires Sorting(g, out, f) && DepthMap(g, depth, done)
    requires NonDecreasing(depth, out + f.queue) && WithinOneLevel(depth, f.queue)
    requires forall n :: n in KahnFrom(g, f) ==> n in done
    ensures NonDecreasing(depth, out + KahnFrom(g, f))
    decreases Work(f)
  {
    if f.queue == [] {
      assert out + f.queue == out + KahnFrom(g, f);
    } else {
      SortingStep(g, out, f);
      QueueIsListed(g, out + [f.queue[0]], Pop(g, f));
      assert forall n :: n in KahnFrom(g, Pop(g, f)) ==> n in KahnFrom(g, f);
      LevelsStep(g, depth, done, out, f);
      LevelsFrom(g, depth, done, out + [f.queue[0]], Pop(g, f));
      OrderUnfolds(g, out, f);
    }
  }

  lemma QueueIsLast(depth: map<Id, nat>, out: seq<Id>, queue: seq<Id>, n: Id)
    requires queue != [] && NonDecreasing(depth, out + queue) && WithinOneLevel(depth, queue) && n in out + queue
    ensures depth[n] <= depth[queue[0]] + 1
  {
    var s := out + queue;
    var i :| 0 <= i < |s| && s[i] == n;
    assert s[|out|] == queue[0];
    if i >= |out| {
      assert n in queue;
    }
  }

  lemma LevelsGrow(depth: map<Id, nat>, out: seq<Id>, queue: seq<Id>, pushed: seq<Id>)
    requires queue != [] && NonDecreasing(depth, out + queue) && WithinOneLevel(depth, queue)
    requires forall n :: n in pushed ==> n in depth && depth[n] == depth[queue[0]] + 1
    ensures NonDecreasing(depth, out + [queue[0]] + (queue[1..] + pushed))
  {
    forall n | n in out + queue ensures depth[n] <= depth[queue[0]] + 1 {
      QueueIsLast(depth, out, queue, n);
    }
    AppendNonDecreasing(depth, out + queue, pushed, depth[queue[0]] + 1);
    assert queue == [queue[0]] + queue[1..];
    assert out + [queue[0]] + (queue[1..] + pushed) == out + queue + pushed;
  }

  lemma LevelsStep(g: Graph, depth: map<Id, nat>, done: set<Id>, out: seq<Id>, f: Frontier)
    requires Sorting(g, out, f) && DepthMap(g, depth, done) && f.queue != []
    requires NonDecreasing(depth, out + f.queue) && WithinOneLevel(depth, f.queue)
    requires forall n :: n in Pop(g, f).queue ==> n in done
    ensures NonDecreasing(depth, out + [f.queue[0]] + Pop(g, f).queue) && WithinOneLevel(depth, Pop(g, f).queue)
  {
    var pushed := PopQueue(g, out, f);
    forall n | n in pushed ensures n in depth && depth[n] == depth[f.queue[0]] + 1 {
      PushedDepth(g, depth, done, out, f, n);
    }
    QueueTail(depth, out, f.queue, pushed);
    LevelsGrow(depth, out, f.queue, pushed);
  }

  lemma RootDepth(g: Graph, depth: map<Id, nat>, done: set<Id>, n: Id)
    requires DepthMap(g, depth, done) && n in done && n in g.deps && g.deps[n] == []
    ensures n in depth && depth[n] == 0
  {
    assert DepthAt(g, depth, n);
    assert forall d :: !Edge(g, d, n);
  }

  lemma LevelsStart(g: Graph, depth: map<Id, nat>, done: set<Id>)
    requires WellFormed(g) && DepthMap(g, depth, done) && forall n :: n in Start(g).queue ==> n in done
    ensures NonDecreasing(depth, Start(g).queue) && WithinOneLevel(depth, Start(g).queue)
  {
    RootsAre(g.nodes, g.deps);
    var q := Start(g).queue;
    forall n | n in q ensures n in depth && depth[n] == 0 {
      RootDepth(g, depth, done, n);
    }
    assert forall i :: 0 <= i < |q| ==> q[i] in q;
  }

  // ---- The depths exist ----

  lemma {:induction false} MeasuredEnds(g: Graph, out: seq<Id>, f: Frontier, depth: map<Id, nat>) returns (last: map<Id, nat>)
    requires Sorting(g, out, f) && Measured(g, out, depth)
    ensures Measured(g, out + KahnFrom(g, f), last)
    decreases Work(f)
  {
    if f.queue == [] {
      assert out + KahnFrom(g, f) == out;
      last := depth;
    } else {
      var x := f.queue[0];
      HeadHasDepth(g, out, f, depth);
      var after := Deepened(depth, Children(g, x), depth[x] + 1);
      DeepenKeepsMeasured(g, out, f, depth, x, after);
      SortingStep(g, out, f);
      last := MeasuredEnds(g, out + [x], Pop(g, f), after);
      OrderUnfolds(g, out, f);
    }
  }

  lemma DepthMapExists(g: Graph) returns (depth: map<Id, nat>)
    requires WellFormed(g)
    ensures DepthMap(g, depth, Sorted(g))
  {
    MeasuredStarts(g);
    SortingStarts(g);
    depth := MeasuredEnds(g, [], Start(g), map n | n in Roots(g.nodes, g.deps) :: 0);
    assert [] + KahnOrder(g) == KahnOrder(g);
    var f := OrderSorting(g);
    MeasuredAtEnd(g, KahnOrder(g), f, depth);
  }

  lemma LevelledBy(g: Graph, depth: map<Id, nat>)
    requires WellFormed(g) && DepthMap(g, depth, Sorted(g))
    ensures NonDecreasing(depth, KahnOrder(g))
  {
    SortedAreListed(g);
    SortingStarts(g);
    QueueIsListed(g, [], Start(g));
    LevelsStart(g, depth, Sorted(g));
    assert [] + Start(g).queue == Start(g).queue;
    LevelsFrom(g, depth, Sorted(g), [], Start(g));
    assert [] + KahnOrder(g) == KahnOrder(g);
  }

  lemma OrderIsLevelled(g: Graph) returns (depth: map<Id, nat>)
    requires WellFormed(g)
    ensures DepthMap(g, depth, Sorted(g)) && NonDecreasing(depth, KahnOrder(g))
  {
    depth := DepthMapExists(g);
    LevelledBy(g, depth);
  }

  /**
   Along the execution order the longest-chain depth never decreases, and every listed node has one: for
   every graph, with unknown dependencies and cycles or not.
   */
  lemma OrderFollowsDepth(g: Graph, i: nat, j: nat) returns (a: nat, b: nat)
    requires WellFormed(g) && i < j < |KahnOrder(g)|
    ensures IsLongest(g, KahnOrder(g)[i], a) && IsLongest(g, KahnOrder(g)[j], b) && a <= b
  {
    var depth := OrderIsLevelled(g);
    var m, n := KahnOrder(g)[i], KahnOrder(g)[j];
    assert m in KahnOrder(g) && n in KahnOrder(g);
    DepthMapIsLongest(g, depth, Sorted(g), m);
    DepthMapIsLongest(g, depth, Sorted(g), n);
    a, b := depth[m], depth[n];
  }
}
