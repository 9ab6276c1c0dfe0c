/**
 Cycle detection by depth-first colouring. The class holds the variables that the recursive search
 shares with its caller; `finished` and the `stack` argument are proof-only: the black nodes in the
 order they were finished, and the gray nodes from the root of the search to the current node.
 */
module CycleDetection {
  import opened Common
  import opened DepGraph

  datatype Color = White | Gray | Black

  /** Each element of the list was entered from the one before it. */
  ghost predicate ParentChain(parent: map<Id, Option<Id>>, stack: seq<Id>) {
    forall i, j :: 0 <= i < j < |stack| && j == i + 1 ==>
      stack[j] in parent && parent[stack[j]] == Some(stack[i])
  }

  /** All children of a finished node were finished before it. */
  ghost predicate ChildrenFirst(g: Graph, finished: seq<Id>) {
    forall i, c :: 0 <= i < |finished| && Edge(g, finished[i], c) ==> c in finished[..i]
  }

  function Reversed<T>(s: seq<T>): (r: seq<T>)
    ensures |r| == |s|
    ensures forall i :: 0 <= i < |s| ==> r[i] == s[|s| - 1 - i]
  {
    seq(|s|, i requires 0 <= i < |s| => s[|s| - 1 - i])
  }

  lemma ReversedGrows<T>(s: seq<T>, k: nat)
    requires k < |s|
    ensures Reversed(s[k..]) == Reversed(s[k+1..]) + [s[k]]
  {
    assert s[k..] == [s[k]] + s[k+1..];
  }

  /** Walks the parent pointers from `from` back to `to`; `stack` witnesses that they lead there. */
  method ReconstructCycle(parent: map<Id, Option<Id>>, from: Id, to: Id, ghost stack: seq<Id>)
    returns (path: seq<Id>)
    requires ParentChain(parent, stack) && Distinct(stack)
    requires to in stack && |stack| > 0 && stack[|stack|-1] == from
    ensures path == stack[Position(stack, to)..] + [to]
  {
    ghost var first := Position(stack, to);
    ghost var k := |stack| - 1;
    path := [to];
    var current := from;
    while current != to
      invariant first <= k < |stack| && current == stack[k]
      invariant path == [to] + Reversed(stack[k+1..])
      decreases k
    {
      path := path + [current];
      ReversedGrows(stack, k);
      var next := if current in parent then parent[current] else Some(to);
      assert k != first;
      ghost var up := stack[k-1];
      assert stack[k] in parent && parent[stack[k]] == Some(up);
      if next == None {
        break;
      }
      current := next.value;
      k := k - 1;
    }
    path := Reversed(path + [to]);
    assert stack[k..] == [to] + stack[k+1..];
  }

  lemma StackCloses(g: Graph, stack: seq<Id>, first: nat, to: Id)
    requires first < |stack| && stack[first] == to && Distinct(stack) && IsPath(g, stack)
    requires Edge(g, stack[|stack|-1], to)
    ensures SimpleCycle(g, stack[first..] + [to])
  {
    var c := stack[first..] + [to];
    forall i, j | 0 <= i < j < |c| && j == i + 1 ensures Edge(g, c[i], c[j]) {
      if j < |c| - 1 {
        assert Edge(g, stack[first + i], stack[first + j]);
      }
    }
    assert c[1..] == stack[first+1..] + [to];
  }

  /** When every node is finished after its children, no cycle is left. */
  lemma FinishedIsAcyclic(g: Graph, finished: seq<Id>)
    requires g.deps.Keys <= Elems(finished) && ChildrenFirst(g, finished)
    ensures Acyclic(g)
  {
    var rank := map n | n in Elems(finished) :: -(FirstPosition(finished, n) as int);
    forall a, b | Edge(g, a, b) && a in g.deps ensures a in rank && b in rank && rank[a] < rank[b] {
      assert b in finished[..FirstPosition(finished, a)];
    }
    RankedIsAcyclic(g, rank);
  }

  ghost function FirstPosition(s: seq<Id>, x: Id): (i: nat)
    requires x in s
    ensures i < |s| && s[i] == x && x !in s[..i]
    ensures forall k :: 0 <= k < |s| && s[k] == x ==> i <= k
  {
    if s[0] == x then 0 else 1 + FirstPosition(s[1..], x)
  }

  /** The search invariant: the gray nodes are the stack, the black ones are finished. */
  ghost predicate Coloring(g: Graph, color: map<Id, Color>, parent: map<Id, Option<Id>>, finished: seq<Id>, stack: seq<Id>) {
    && color.Keys == g.deps.Keys && parent.Keys == g.deps.Keys
    && Distinct(stack) && IsPath(g, stack) && ParentChain(parent, stack)
    && (forall n :: n in stack <==> n in color && color[n] == Gray)
    && ChildrenFirst(g, finished)
    && (forall n :: n in finished <==> n in color && color[n] == Black)
  }

  lemma EnterNode(g: Graph, color: map<Id, Color>, parent: map<Id, Option<Id>>, finished: seq<Id>, stack: seq<Id>, node: Id)
    requires Coloring(g, color, parent, finished, stack) && node in color && color[node] == White
    requires stack != [] ==> Edge(g, stack[|stack|-1], node) && parent[node] == Some(stack[|stack|-1])
    ensures Coloring(g, color[node := Gray], parent, finished, stack + [node])
  {
  }

  lemma PointToParent(g: Graph, color: map<Id, Color>, parent: map<Id, Option<Id>>, finished: seq<Id>, stack: seq<Id>, child: Id, p: Id)
    requires Coloring(g, color, parent, finished, stack) && child in color && color[child] == White
    ensures Coloring(g, color, parent[child := Some(p)], finished, stack)
  {
    assert child !in stack;
  }

  lemma LeaveNode(g: Graph, color: map<Id, Color>, parent: map<Id, Option<Id>>, finished: seq<Id>, stack: seq<Id>, node: Id)
    requires Coloring(g, color, parent, finished, stack + [node])
    requires forall c :: Edge(g, node, c) ==> c in finished
    ensures Coloring(g, color[node := Black], parent, finished + [node], stack)
  {
    var path, done := stack + [node], finished + [node];
    forall i, j | 0 <= i < j < |stack| && j == i + 1
      ensures Edge(g, stack[i], stack[j]) && stack[j] in parent && parent[stack[j]] == Some(stack[i])
    {
      assert path[i] == stack[i] && path[j] == stack[j];
    }
    forall i, j | 0 <= i < j < |stack| ensures stack[i] != stack[j] {
      assert path[i] == stack[i] && path[j] == stack[j];
    }
    forall n ensures n in stack <==> n in color && color[node := Black][n] == Gray {
      assert n in path <==> n in stack || n == node;
      assert node !in stack by {
        assert forall i :: 0 <= i < |stack| ==> path[i] == stack[i] && path[i] != path[|stack|];
      }
    }
    forall i, c | 0 <= i < |done| && Edge(g, done[i], c) ensures c in done[..i] {
      assert done[..i] == finished[..i];
    }
  }

  /** Between two searches no node is gray. */
  lemma WhiteOrFinished(g: Graph, color: map<Id, Color>, parent: map<Id, Option<Id>>, finished: seq<Id>)
    requires Coloring(g, color, parent, finished, [])
    ensures color.Keys == g.deps.Keys && ChildrenFirst(g, finished)
    ensures forall n :: n in g.deps ==> color[n] == White || n in finished
  {
    forall n | n in g.deps ensures color[n] == White || n in finished {
      assert n !in [];
    }
  }

  class CycleDetector {
    const g: Graph
    const children: map<Id, seq<Id>>
    var color: map<Id, Color>
    var parent: map<Id, Option<Id>>
    ghost var finished: seq<Id>

    ghost predicate Setup() {
      WellFormed(g) && forall n :: Get(children, n) == Children(g, n)
    }

    ghost predicate Valid(stack: seq<Id>)
      reads this
    {
      Coloring(g, color, parent, finished, stack)
    }

    ghost function Whites(): set<Id>
      reads this
    {
      set n | n in color && color[n] == White
    }

    constructor (g: Graph, children: map<Id, seq<Id>>)
      requires WellFormed(g)
      requires forall n :: Get(children, n) == Children(g, n)
      ensures this.g == g && Setup() && Valid([])
    {
      this.g := g;
      this.children := children;
      color := map n | n in g.deps :: White;
      parent := map n | n in g.deps :: None;
      finished := [];
    }

    /** Colours `node` gray, searches its children, and colours it black when none leads to a cycle. */
    method Dfs(node: Id, ghost stack: seq<Id>) returns (cycle: Option<seq<Id>>)
      requires Setup() && Valid(stack)
      requires node in color && color[node] == White
      requires stack != [] ==> Edge(g, stack[|stack|-1], node) && parent[node] == Some(stack[|stack|-1])
      modifies this
      ensures cycle.Some? ==> SimpleCycle(g, cycle.value)
      ensures cycle.None? ==> Valid(stack) && node in finished && old(finished) <= finished
      ensures cycle.None? ==> Whites() < old(Whites())
      decreases Whites(), 0
    {
      hide Coloring, SimpleCycle;
      ghost var path := stack + [node];
      EnterNode(g, color, parent, finished, stack, node);
      color := color[node := Gray];
      assert node in old(Whites()) && node !in Whites();
      cycle := VisitChildren(node, path);
      if cycle.Some? {
        return;
      }
      forall c | Edge(g, node, c) ensures c in finished {
        ChildrenCount(g, node, c);
      }
      LeaveNode(g, color, parent, finished, stack, node);
      color := color[node := Black];
      finished := finished + [node];
    }

    /** The loop over the children of the current node. */
    method VisitChildren(node: Id, ghost path: seq<Id>) returns (cycle: Option<seq<Id>>)
      requires Setup() && Valid(path) && path != [] && path[|path|-1] == node
      modifies this
      ensures cycle.Some? ==> SimpleCycle(g, cycle.value)
      ensures cycle.None? ==> Valid(path) && old(finished) <= finished
      ensures cycle.None? ==> forall c :: c in Children(g, node) ==> c in finished
      ensures cycle.None? ==> Whites() <= old(Whites())
      decreases Whites(), 2
    {
      hide Coloring, SimpleCycle, Children;
      var kids := Get(children, node);
      var i := 0;
      while i < |kids|
        invariant 0 <= i <= |kids|
        invariant Valid(path) && old(finished) <= finished
        invariant Whites() <= old(Whites())
        invariant forall k :: 0 <= k < i ==> kids[k] in finished
      {
        ChildrenCount(g, node, kids[i]);
        cycle := Visit(node, kids[i], path);
        if cycle.Some? {
          return;
        }
        i := i + 1;
      }
      return None;
    }

    /** One round of the loop over the children: a gray child closes a cycle, a white one is searched. */
    method Visit(node: Id, child: Id, ghost path: seq<Id>) returns (cycle: Option<seq<Id>>)
      requires Setup() && Valid(path) && path != [] && path[|path|-1] == node
      requires Edge(g, node, child)
      modifies this
      ensures cycle.Some? ==> SimpleCycle(g, cycle.value)
      ensures cycle.None? ==> Valid(path) && child in finished && old(finished) <= finished
      ensures cycle.None? ==> Whites() <= old(Whites())
      decreases Whites(), 1
    {
      hide SimpleCycle, ChildrenFirst;
      if color[child] == Gray {
        var found := ReconstructCycle(parent, node, child, path);
        StackCloses(g, path, Position(path, child), child);
        return Some(found);
      }
      if color[child] == White {
        PointToParent(g, color, parent, finished, path, child, node);
        parent := parent[child := Some(node)];
        cycle := Dfs(child, path);
        return;
      }
      return None;
    }

    /** The outer loop: starts a search from every node that is still white. */
    method SearchAll() returns (cycle: Option<seq<Id>>)
      requires Setup() && Valid([])
      modifies this
      ensures cycle.Some? ==> SimpleCycle(g, cycle.value)
      ensures cycle.None? ==> g.deps.Keys <= Elems(finished) && ChildrenFirst(g, finished)
    {
      hide Coloring, SimpleCycle, Children;
      NodesAreKeys(g);
      var i := 0;
      while i < |g.nodes|
        invariant 0 <= i <= |g.nodes|
        invariant Valid([])
        invariant forall k :: 0 <= k < i ==> g.nodes[k] in finished
      {
        WhiteOrFinished(g, color, parent, finished);
        if color[g.nodes[i]] == White {
          cycle := Dfs(g.nodes[i], []);
          if cycle.Some? {
            return;
          }
        }
        i := i + 1;
      }
      WhiteOrFinished(g, color, parent, finished);
      return None;
    }
  }

  /** Raises with the offending path exactly when the dependency graph has a cycle. */
  method DetectCycles(g: Graph) returns (cycle: Option<seq<Id>>)
    requires WellFormed(g)
    ensures cycle.None? <==> Acyclic(g)
    ensures cycle.Some? ==> SimpleCycle(g, cycle.value)
  {
    var children := BuildChildren(g);
    var search := new CycleDetector(g, children);
    cycle := search.SearchAll();
    if cycle.None? {
      FinishedIsAcyclic(g, search.finished);
    }
  }
}
