/** Walks, reachability and elementary cycles of a finite directed graph, given by its set of edges.
    The two halves of bindings/python/topsort.py (sorting and cycle listing) are stated in these terms. */
module Graphs {
  import opened Common

  /** `w` is a non-empty sequence of nodes in which each node has an edge to the next. */
  ghost predicate Walk<T>(e: set<(T, T)>, w: seq<T>) {
    w != [] && forall i :: 0 < i < |w| ==> (w[i-1], w[i]) in e
  }

  ghost predicate WalkBetween<T>(e: set<(T, T)>, w: seq<T>, a: T, b: T) {
    Walk(e, w) && w[0] == a && w[|w|-1] == b
  }

  ghost predicate Reaches<T(!new)>(e: set<(T, T)>, a: T, b: T) {
    exists w :: WalkBetween(e, w, a, b)
  }

  /** A cycle without repeated nodes; its last node has an edge to its first. */
  ghost predicate ElementaryCycle<T>(e: set<(T, T)>, c: seq<T>) {
    Walk(e, c) && Distinct(c) && (c[|c|-1], c[0]) in e
  }

  ghost predicate HasCycle<T(!new)>(e: set<(T, T)>) {
    exists c :: ElementaryCycle(e, c)
  }

  /** Some elementary cycle leads to `x` (in particular when `x` lies on one). */
  ghost predicate BelowCycle<T(!new)>(e: set<(T, T)>, x: T) {
    exists c :: ElementaryCycle(e, c) && Reaches(e, c[0], x)
  }

  lemma WalkJoin<T>(e: set<(T, T)>, v: seq<T>, w: seq<T>)
    requires Walk(e, v) && Walk(e, w) && v[|v|-1] == w[0]
    ensures WalkBetween(e, v + w[1..], v[0], w[|w|-1])
  {
    var u := v + w[1..];
    forall i | 0 < i < |u| ensures (u[i-1], u[i]) in e {
      if i >= |v| {
        assert u[i] == w[i - |v| + 1];
        assert u[i-1] == w[i - |v|];
      }
    }
  }

  lemma WalkSlice<T>(e: set<(T, T)>, w: seq<T>, i: nat, j: nat)
    requires Walk(e, w) && i < j <= |w|
    ensures WalkBetween(e, w[i..j], w[i], w[j-1])
  {
  }

  lemma ReachesTrans<T(!new)>(e: set<(T, T)>, a: T, b: T, c: T)
    requires Reaches(e, a, b) && Reaches(e, b, c)
    ensures Reaches(e, a, c)
  {
    var v :| WalkBetween(e, v, a, b);
    var w :| WalkBetween(e, w, b, c);
    WalkJoin(e, v, w);
  }

  lemma ReachesEdge<T(!new)>(e: set<(T, T)>, a: T, b: T, c: T)
    requires Reaches(e, a, b) && (b, c) in e
    ensures Reaches(e, a, c)
  {
    assert WalkBetween(e, [b, c], b, c);
    ReachesTrans(e, a, b, c);
  }

  /** Two nodes of a cycle reach each other, so reaching a cycle does not depend on where it starts. */
  lemma CycleConnected<T(!new)>(e: set<(T, T)>, c: seq<T>, i: nat, j: nat)
    requires ElementaryCycle(e, c) && i < |c| && j < |c|
    ensures Reaches(e, c[i], c[j])
  {
    if i <= j {
      WalkSlice(e, c, i, j + 1);
    } else {
      WalkSlice(e, c, i, |c|);
      WalkSlice(e, c, 0, j + 1);
      ReachesEdge(e, c[i], c[|c|-1], c[0]);
      ReachesTrans(e, c[i], c[0], c[j]);
    }
  }

  /** A closed walk contains an elementary cycle that starts at one of its nodes. */
  lemma {:induction false} ClosedWalkHasCycle<T>(e: set<(T, T)>, w: seq<T>) returns (c: seq<T>, at: nat)
    requires Walk(e, w) && (w[|w|-1], w[0]) in e
    ensures ElementaryCycle(e, c) && at < |w| && w[at] == c[0]
    decreases |w|
  {
    if Distinct(w) {
      return w, 0;
    }
    var i, j :| 0 <= i < j < |w| && w[i] == w[j];
    WalkSlice(e, w, i, j);
    assert (w[j-1], w[j]) in e;
    var k;
    c, k := ClosedWalkHasCycle(e, w[i..j]);
    at := i + k;
  }

  /** A sequence without repetitions is no longer than a set it stays in. */
  lemma {:induction false} DistinctBound<T>(s: seq<T>, u: set<T>)
    requires Distinct(s) && forall x :: x in s ==> x in u
    ensures |s| <= |u|
    decreases |s|
  {
    if s != [] {
      var last := s[|s|-1];
      DistinctBound(s[..|s|-1], u - {last});
    }
  }

  lemma DistinctConcat<T>(s: seq<T>, t: seq<T>)
    requires Distinct(s) && Distinct(t) && forall x :: x in t ==> x !in s
    ensures Distinct(s + t)
  {
    forall i, j | 0 <= i < j < |s + t| ensures (s + t)[i] != (s + t)[j] {
      if i < |s| <= j {
        assert (s + t)[j] in t && (s + t)[i] in s;
      }
    }
  }

  lemma {:induction false} DistinctCardinality<T>(s: seq<T>)
    requires Distinct(s)
    ensures |Elements(s)| == |s|
    decreases |s|
  {
    if s != [] {
      var r := s[..|s|-1];
      DistinctCardinality(r);
      assert Elements(s) == Elements(r) + {s[|s|-1]};
    }
  }

  // ----- which nodes lie below a cycle

  ghost predicate HasParentIn<T>(e: set<(T, T)>, u: set<T>, x: T) {
    exists p :: p in u && (p, x) in e
  }

  /** Every node of `u` has a predecessor in `u`. */
  ghost predicate SelfSupported<T>(e: set<(T, T)>, u: set<T>) {
    forall x {:trigger HasParentIn(e, u, x)} :: x in u ==> HasParentIn(e, u, x)
  }

  lemma {:induction false} BackwardWalk<T>(e: set<(T, T)>, u: set<T>, x: T, n: nat) returns (w: seq<T>)
    requires SelfSupported(e, u) && x in u
    ensures |w| == n + 1 && Walk(e, w) && w[n] == x && forall y :: y in w ==> y in u
    decreases n
  {
    if n == 0 {
      return [x];
    }
    assert HasParentIn(e, u, x);
    var p :| p in u && (p, x) in e;
    var v := BackwardWalk(e, u, p, n - 1);
    w := v + [x];
  }

  /** Going back |u| times inside a finite set must close a cycle. */
  lemma SelfSupportedBelowCycle<T(!new)>(e: set<(T, T)>, u: set<T>, x: T)
    requires SelfSupported(e, u) && x in u
    ensures BelowCycle(e, x)
  {
    var w := BackwardWalk(e, u, x, |u|);
    if Distinct(w) {
      DistinctBound(w, u);
      assert false;
    } else {
      var i, j :| 0 <= i < j < |w| && w[i] == w[j];
      WalkSlice(e, w, i, j);
      assert (w[j-1], w[j]) in e;
      var c, k := ClosedWalkHasCycle(e, w[i..j]);
      WalkSlice(e, w, i + k, |w|);
    }
  }

  /** In `order` every node comes after all its predecessors. */
  ghost predicate ParentsFirst<T(!new)>(e: set<(T, T)>, order: seq<T>) {
    forall p, j :: 0 <= j < |order| && (p, order[j]) in e ==> p in order[..j]
  }

  lemma {:induction false} WalkDescends<T(!new)>(e: set<(T, T)>, order: seq<T>, w: seq<T>, j: nat) returns (i: nat)
    requires ParentsFirst(e, order) && Walk(e, w) && j < |order| && order[j] == w[|w|-1]
    ensures i + |w| <= j + 1 && order[i] == w[0]
    decreases |w|
  {
    if |w| == 1 {
      return j;
    }
    var p := w[|w|-2];
    assert (p, w[|w|-1]) in e;
    assert p in order[..j];
    var m :| 0 <= m < j && order[m] == p;
    i := WalkDescends(e, order, w[..|w|-1], m);
  }

  /** A node placed after all its predecessors cannot lie below a cycle. */
  lemma PlacedNotBelowCycle<T(!new)>(e: set<(T, T)>, order: seq<T>, x: T)
    requires Distinct(order) && ParentsFirst(e, order) && x in order
    ensures !BelowCycle(e, x)
  {
    if BelowCycle(e, x) {
      var c :| ElementaryCycle(e, c) && Reaches(e, c[0], x);
      var w :| WalkBetween(e, w, c[0], x);
      var j :| 0 <= j < |order| && order[j] == x;
      var i := WalkDescends(e, order, w, j);
      var round := c + [c[0]];
      assert Walk(e, round);
      var k := WalkDescends(e, order, round, i);
      assert false;
    }
  }

  /** When the placed nodes are ordered and the others support themselves, the others are
      exactly the nodes below a cycle: no freedom is left to the sorting algorithm. */
  lemma LeftoverIsBelowCycle<T(!new)>(e: set<(T, T)>, all: set<T>, order: seq<T>)
    requires Distinct(order) && ParentsFirst(e, order)
    requires SelfSupported(e, all - Elements(order))
    ensures forall x :: x in all ==> (x !in order <==> BelowCycle(e, x))
  {
    forall x | x in all ensures x !in order <==> BelowCycle(e, x) {
      if x in order {
        PlacedNotBelowCycle(e, order, x);
      } else {
        SelfSupportedBelowCycle(e, all - Elements(order), x);
      }
    }
  }

  lemma CycleMeansBelow<T(!new)>(e: set<(T, T)>, all: set<T>)
    requires forall p, c :: (p, c) in e ==> p in all && c in all
    ensures HasCycle(e) <==> exists x :: x in all && BelowCycle(e, x)
  {
    if HasCycle(e) {
      var c :| ElementaryCycle(e, c);
      CycleConnected(e, c, 0, 0);
      assert BelowCycle(e, c[0]);
    }
  }
}
