/** Small shared vocabulary: identifiers, results, and facts about finite sequences. */
module Common {

  /** Step, workflow and execution identifiers. The engine only compares them for equality. */
  type Id = nat

  datatype Option<+T> = None | Some(value: T)

  datatype Result<+T, +E> = Ok(value: T) | Err(error: E)

  ghost predicate Distinct<T>(s: seq<T>) {
    forall i, j :: 0 <= i < j < |s| ==> s[i] != s[j]
  }

  function Elems<T>(s: seq<T>): set<T> {
    set x | x in s
  }

  /** Number of occurrences of x in s. */
  function Count<T(==)>(s: seq<T>, x: T): nat {
    if s == [] then 0
    else Count(s[..|s|-1], x) + if s[|s|-1] == x then 1 else 0
  }

  lemma CountMember<T>(s: seq<T>, x: T)
    ensures Count(s, x) > 0 <==> x in s
  {
    if s != [] {
      CountMember(s[..|s|-1], x);
      assert s == s[..|s|-1] + [s[|s|-1]];
    }
  }

  lemma {:induction false} CountConcat<T>(a: seq<T>, b: seq<T>, x: T)
    ensures Count(a + b, x) == Count(a, x) + Count(b, x)
  {
    if b == [] {
      assert a + b == a;
    } else {
      assert (a + b)[..|a + b| - 1] == a + b[..|b|-1];
      CountConcat(a, b[..|b|-1], x);
    }
  }

  lemma {:induction false} DistinctCard<T>(s: seq<T>)
    requires Distinct(s)
    ensures |Elems(s)| == |s|
  {
    if s != [] {
      var init, last := s[..|s|-1], s[|s|-1];
      DistinctCard(init);
      assert Elems(s) == Elems(init) + {last};
      assert last !in Elems(init);
    }
  }

  lemma SubsetCard<T>(a: set<T>, b: set<T>)
    requires a <= b
    ensures |a| <= |b|
    ensures |a| == |b| ==> a == b
  {
    assert b == a + (b - a);
    assert a !! (b - a);
  }

  /** A sequence longer than the set it draws from repeats an element. */
  lemma Pigeonhole<T>(s: seq<T>, pool: set<T>) returns (i: nat, j: nat)
    requires Elems(s) <= pool
    requires |s| > |pool|
    ensures i < j < |s| && s[i] == s[j]
  {
    if Distinct(s) {
      DistinctCard(s);
      SubsetCard(Elems(s), pool);
      assert false;
    }
    i, j :| 0 <= i < j < |s| && s[i] == s[j];
  }

  function MaxNat(a: nat, b: nat): nat {
    if a < b then b else a
  }
}
