/**
 How the run-time sort breaks ties: steps are released by their last dependency, and steps released together
 keep their order in the list. With the earlier laws this determines the order.
 */
module TieBreak {
  import opened Common
  import opened DepGraph
  import opened Kahn

  /** The last of n's dependencies stands at position k of the order; k is -1 when n has none. */
  ghost predicate LastDepAt(g: Graph, order: seq<Id>, n: Id, k: int) {
    && n in g.deps && -1 <= k < |order|
    && (forall d :: d in g.deps[n] ==> d in order[..k + 1])
    && (k >= 0 ==> order[k] in g.deps[n])
  }

  /** m comes before n in the list. */
  ghost predicate Earlier(nodes: seq<Id>, m: Id, n: Id) {
    exists p, q :: 0 <= p < q < |nodes| && nodes[p] == m && nodes[q] == n
  }

  /** m, whose last dependency is at a, goes before n, whose last dependency is at b. */
  ghost predicate GoesBefore(g: Graph, a: int, m: Id, b: int, n: Id) {
    a < b || (a == b && Earlier(g.nodes, m, n))
  }

  /** The listed steps are in the order in which their last dependencies release them, seen from `order`. */
  ghost predicate Released(g: Graph, order: seq<Id>, listed: seq<Id>) {
    forall i, j, a, b :: 0 <= i < j < |listed| && LastDepAt(g, order, listed[i], a) && LastDepAt(g, order, listed[j], b) ==>
      GoesBefore(g, a, listed[i], b, listed[j])
  }

  // ---- Steps that are released together ----

  ghost predicate InListOrder(nodes: seq<Id>, s: seq<Id>) {
    forall i, j :: 0 <= i < j < |s| ==> Earlier(nodes, s[i], s[j])
  }

  lemma AppendInListOrder(nodes: seq<Id>, m: nat, s: seq<Id>)
    requires m < |nodes| && InListOrder(nodes, s) && forall n :: n in s ==> n in nodes[..m]
    ensures InListOrder(nodes, s + [nodes[m]])
  {
    var t := s + [nodes[m]];
    forall i, j | 0 <= i < j < |t| ensures Earlier(nodes, t[i], t[j]) {
      assert t[i] in s;
      if j == |s| {
        var p :| 0 <= p < m && nodes[..m][p] == t[i];
        assert nodes[p] == t[i] && nodes[m] == t[j];
      }
    }
  }

  lemma {:induction false} RootsInListOrder(nodes: seq<Id>, deps: map<Id, seq<Id>>, m: nat)
    requires m <= |nodes|
    ensures InListOrder(nodes, Roots(nodes[..m], deps))
    ensures forall n :: n in Roots(nodes[..m], deps) ==> n in nodes[..m] && n in deps && deps[n] == []
  {
    if m > 0 {
      var k: nat := m - 1;
      RootsInListOrder(nodes, deps, k);
      assert nodes[..m][..k] == nodes[..k] && nodes[..m] == nodes[..k] + [nodes[k]];
      AppendInListOrder(nodes, k, Roots(nodes[..k], deps));
    }
  }

  lemma {:induction false} RelaxConcat(a: seq<Id>, b: seq<Id>, f: Frontier)
    requires Covers(f, a + b)
    ensures Covers(f, a) && Covers(Relax(a, f), b) && Relax(a + b, f) == Relax(b, Relax(a, f))
  {
    assert forall c :: c in a || c in b ==> c in a + b;
    if b == [] {
      assert a + b == a;
    } else {
      var init := b[..|b|-1];
      assert (a + b)[..|a + b| - 1] == a + init;
      assert forall c :: c in a + init ==> c in a + b;
      RelaxConcat(a, init, f);
    }
  }

  /** Decrementing one node several times appends it to the queue at most once. */
  lemma RelaxOne(n: Id, k: nat, f: Frontier)
    requires Covers(f, Repeat(n, k))
    ensures var q := Relax(Repeat(n, k), f).queue; q == f.queue || q == f.queue + [n]
  {
    var q := Relax(Repeat(n, k), f).queue;
    RelaxEffect(Repeat(n, k), f);
    var added := q[|f.queue|..];
    assert q == f.queue + added;
    forall c | c in added ensures c == n {
      CountRepeat(n, k, c);
    }
    assert forall i :: 0 <= i < |added| ==> added[i] in added;
    OnlyOnce(added, n);
  }

  lemma OnlyOnce(s: seq<Id>, n: Id)
    requires Distinct(s) && forall c :: c in s ==> c == n
    ensures s == [] || s == [n]
  {
    if |s| > 1 {
      FirstTwoDiffer(s);
      assert false;
    } else if s != [] {
      assert s[0] in s;
    }
  }

  lemma FirstTwoDiffer(s: seq<Id>)
    requires Distinct(s) && |s| > 1
    ensures s[0] in s && s[1] in s && s[0] != s[1]
  {
  }

  /** What is appended while the dependents of x among the first m nodes are decremented. */
  lemma {:induction false} RelaxInListOrder(g: Graph, x: Id, m: nat, f: Frontier) returns (added: seq<Id>)
    requires WellFormed(g) && m <= |g.nodes| && forall n :: n in g.nodes ==> n in g.deps
    requires Covers(f, Dependents(g.nodes[..m], g.deps, x))
    ensures Relax(Dependents(g.nodes[..m], g.deps, x), f).queue == f.queue + added
    ensures InListOrder(g.nodes, added) && forall n :: n in added ==> n in g.nodes[..m]
  {
    if m == 0 {
      added := [];
    } else {
      var k: nat := m - 1;
      var n := g.nodes[k];
      assert g.nodes[..m][..k] == g.nodes[..k] && g.nodes[..m] == g.nodes[..k] + [n];
      var before, more := Dependents(g.nodes[..k], g.deps, x), Repeat(n, Count(g.deps[n], x));
      RelaxConcat(before, more, f);
      added := RelaxInListOrder(g, x, k, f);
      RelaxOne(n, Count(g.deps[n], x), Relax(before, f));
      if Relax(before + more, f).queue != Relax(before, f).queue {
        AppendInListOrder(g.nodes, k, added);
        added := added + [n];
      }
    }
  }

  /** The steps that a pop releases join the queue in list order. */
  lemma PopInListOrder(g: Graph, out: seq<Id>, f: Frontier, pushed: seq<Id>)
    requires Sorting(g, out, f) && f.queue != [] && Pop(g, f).queue == f.queue[1..] + pushed
    ensures InListOrder(g.nodes, pushed)
  {
    NodesAreKeys(g);
    var rest := f.(queue := f.queue[1..]);
    ChildrenCovered(g, f.queue[0], rest);
    assert g.nodes[..|g.nodes|] == g.nodes;
    var added := RelaxInListOrder(g, f.queue[0], |g.nodes|, rest);
    assert added == Pop(g, f).queue[|rest.queue|..] == pushed;
  }

  // ---- The loop ----

  /** A step seen earlier depends on steps popped earlier; one that is released now has x as its last dependency. */
  lemma LastDepMoves(g: Graph, out: seq<Id>, x: Id, n: Id, k: int)
    requires x !in out && LastDepAt(g, out + [x], n, k)
    ensures (forall d :: d in g.deps[n] ==> d in out) ==> k < |out| && LastDepAt(g, out, n, k)
    ensures x in g.deps[n] ==> k == |out|
  {
    var o := out + [x];
    if k < |out| {
      assert o[..k + 1] == out[..k + 1];
      assert x !in o[..k + 1];
    }
  }

  lemma QueuedIsReady(g: Graph, out: seq<Id>, f: Frontier, n: Id)
    requires Sorting(g, out, f) && n in out + f.queue
    ensures n in g.deps && forall d :: d in g.deps[n] ==> d in out
  {
    OpenZero(g.deps[n], Elems(out));
  }

  lemma ReleasedStep(g: Graph, out: seq<Id>, f: Frontier)
    requires Sorting(g, out, f) && f.queue != [] && Released(g, out, out + f.queue)
    ensures Released(g, out + [f.queue[0]], out + [f.queue[0]] + Pop(g, f).queue)
  {
    var x, s := f.queue[0], out + f.queue;
    var pushed := PopQueue(g, out, f);
    PopInListOrder(g, out, f, pushed);
    HeadIsReady(g, out, f);
    Regroup(out, f.queue, pushed);
    var t := s + pushed;
    forall i, j, a, b | 0 <= i < j < |t| && LastDepAt(g, out + [x], t[i], a) && LastDepAt(g, out + [x], t[j], b)
      ensures GoesBefore(g, a, t[i], b, t[j])
    {
      LastDepMoves(g, out, x, t[i], a);
      LastDepMoves(g, out, x, t[j], b);
      if i < |s| {
        QueuedIsReady(g, out, f, s[i]);
      } else {
        assert t[i] in pushed;
      }
      if j < |s| {
        QueuedIsReady(g, out, f, s[j]);
        assert t[i] == s[i] && t[j] == s[j];
      } else {
        assert t[j] in pushed;
        assert i >= |s| ==> Earlier(g.nodes, pushed[i - |s|], pushed[j - |s|]);
      }
    }
  }

  lemma {:induction false} ReleasedFrom(g: Graph, out: seq<Id>, f: Frontier)
    requires Sorting(g, out, f) && Released(g, out, out + f.queue)
    ensures Released(g, out + KahnFrom(g, f), out + KahnFrom(g, f))
    decreases Work(f)
  {
    if f.queue == [] {
      assert out + f.queue == out + KahnFrom(g, f) == out;
    } else {
      ReleasedStep(g, out, f);
      SortingStep(g, out, f);
      ReleasedFrom(g, out + [f.queue[0]], Pop(g, f));
      OrderUnfolds(g, out, f);
    }
  }

  /**
   Main theorem, for every graph: of two listed steps the one whose last dependency comes earlier goes first;
   steps without dependencies and steps with the same last dependency keep their order in the list.
   */
  lemma OrderBreaksTies(g: Graph)
    requires WellFormed(g)
    ensures Released(g, KahnOrder(g), KahnOrder(g))
  {
    SortingStarts(g);
    var q := Start(g).queue;
    assert g.nodes[..|g.nodes|] == g.nodes;
    RootsInListOrder(g.nodes, g.deps, |g.nodes|);
    assert [] + q == q && [] + KahnOrder(g) == KahnOrder(g);
    forall i, j, a, b | 0 <= i < j < |q| && LastDepAt(g, [], q[i], a) && LastDepAt(g, [], q[j], b)
      ensures GoesBefore(g, a, q[i], b, q[j])
    {
      assert Earlier(g.nodes, q[i], q[j]);
    }
    ReleasedFrom(g, [], Start(g));
  }

  // ---- The order is determined ----

  lemma {:induction false} LastDepExists(g: Graph, order: seq<Id>, n: Id, m: nat) returns (k: int)
    requires n in g.deps && m <= |order| && forall d :: d in g.deps[n] ==> d in order[..m]
    ensures LastDepAt(g, order, n, k) && k < m
    decreases m
  {
    if m == 0 {
      k := -1;
    } else if order[m - 1] in g.deps[n] {
      k := m - 1;
    } else {
      assert order[..m] == order[..m - 1] + [order[m - 1]];
      k := LastDepExists(g, order, n, m - 1);
    }
  }

  lemma SamePrefixSameLastDep(g: Graph, o: seq<Id>, p: seq<Id>, k: nat, n: Id, a: int)
    requires k <= |o| && k <= |p| && o[..k] == p[..k] && LastDepAt(g, o, n, a) && a < k
    ensures LastDepAt(g, p, n, a)
  {
    assert o[..a + 1] == o[..k][..a + 1] && p[..a + 1] == p[..k][..a + 1];
    assert a >= 0 ==> o[a] == o[..k][a] && p[a] == p[..k][a];
  }

  lemma EarlierIsStrict(nodes: seq<Id>, m: Id, n: Id)
    requires Distinct(nodes) && Earlier(nodes, m, n)
    ensures !Earlier(nodes, n, m)
  {
  }

  /** Any listing of the same steps that obeys the laws: dependencies first, ties broken as above. */
  ghost predicate Lawful(g: Graph, order: seq<Id>)
    requires WellFormed(g)
  {
    && Distinct(order) && Elems(order) == Elems(KahnOrder(g))
    && DepsFirst(g, order) && Released(g, order, order)
  }

  lemma LaterElement(o: seq<Id>, p: seq<Id>, k: nat) returns (j: nat)
    requires k < |o| && k < |p| && o[..k] == p[..k] && Distinct(p) && p[k] in o && o[k] != p[k]
    ensures k < j < |o| && o[j] == p[k]
  {
    j :| 0 <= j < |o| && o[j] == p[k];
    assert forall i :: 0 <= i < k ==> p[i] == p[..k][i] && o[i] == o[..k][i];
  }

  /** The next step of one lawful listing goes before that of another one, if they differ. */
  lemma NextGoesBefore(g: Graph, o: seq<Id>, p: seq<Id>, k: nat, a: int, b: int)
    requires WellFormed(g) && Lawful(g, o) && Lawful(g, p) && k < |o| && k < |p| && o[..k] == p[..k] && o[k] != p[k]
    requires a < k && b < k && LastDepAt(g, o, o[k], a) && LastDepAt(g, p, p[k], b)
    ensures GoesBefore(g, a, o[k], b, p[k])
  {
    assert p[k] in Elems(o) by {
      assert p[k] in Elems(p);
    }
    var j := LaterElement(o, p, k);
    SamePrefixSameLastDep(g, p, o, k, p[k], b);
  }

  lemma NextStep(g: Graph, o: seq<Id>, k: nat) returns (a: int)
    requires WellFormed(g) && Lawful(g, o) && k < |o|
    ensures a < k && LastDepAt(g, o, o[k], a)
  {
    OrderIsSound(g);
    assert o[k] in Elems(o);
    a := LastDepExists(g, o, o[k], k);
  }

  lemma SameNext(g: Graph, o: seq<Id>, p: seq<Id>, k: nat)
    requires WellFormed(g) && Lawful(g, o) && Lawful(g, p) && k < |o| && k < |p| && o[..k] == p[..k]
    ensures o[k] == p[k]
  {
    var a := NextStep(g, o, k);
    var b := NextStep(g, p, k);
    if o[k] != p[k] {
      NextGoesBefore(g, o, p, k, a, b);
      NextGoesBefore(g, p, o, k, b, a);
      EarlierIsStrict(g.nodes, o[k], p[k]);
      assert false;
    }
  }

  lemma {:induction false} SamePrefix(g: Graph, o: seq<Id>, p: seq<Id>, k: nat)
    requires WellFormed(g) && Lawful(g, o) && Lawful(g, p) && k <= |o| && k <= |p|
    ensures o[..k] == p[..k]
  {
    if k > 0 {
      var m: nat := k - 1;
      SamePrefix(g, o, p, m);
      SameNext(g, o, p, m);
      assert o[..k] == o[..m] + [o[m]] && p[..k] == p[..m] + [p[m]];
    }
  }

  /** Main theorem: the laws determine the order of the sort, ties included. */
  lemma OrderIsDetermined(g: Graph, order: seq<Id>)
    requires WellFormed(g)
    ensures Lawful(g, order) <==> order == KahnOrder(g)
  {
    OrderIsSound(g);
    OrderBreaksTies(g);
    if Lawful(g, order) {
      DistinctCard(order);
      DistinctCard(KahnOrder(g));
      SamePrefix(g, order, KahnOrder(g), |order|);
      assert order[..|order|] == order && KahnOrder(g)[..|order|] == KahnOrder(g);
    }
  }

  /** Without cycles, the laws single one out among all listings of all steps. */
  lemma AcyclicOrderIsDetermined(g: Graph, order: seq<Id>)
    requires WellFormed(g) && Closed(g) && Acyclic(g)
    ensures order == KahnOrder(g) <==>
      Distinct(order) && Elems(order) == Elems(g.nodes) && DepsFirst(g, order) && Released(g, order, order)
  {
    OrderIsPermutation(g);
    OrderIsDetermined(g, order);
  }
}
