/** Listing every elementary cycle once: `find_cycles` of bindings/python/topsort.py and
    `is_rotated` of bindings/python/rad_util.py. The generator is modelled fully consumed. */
module FindCycles {
  import opened Common
  import opened Graphs

  // ----- rotations

  /** `t` is `s` started at its position `k`. */
  ghost predicate RotatedBy<T>(s: seq<T>, t: seq<T>, k: nat) {
    k < |s| && t == s[k..] + s[..k]
  }

  ghost predicate Rotation<T>(s: seq<T>, t: seq<T>) {
    exists k :: RotatedBy(s, t, k)
  }

  lemma RotationSymmetric<T>(s: seq<T>, t: seq<T>)
    requires Rotation(s, t)
    ensures Rotation(t, s)
  {
    var k: nat :| RotatedBy(s, t, k);
    if k == 0 {
      assert RotatedBy(t, s, 0);
    } else {
      assert RotatedBy(t, s, |s| - k);
    }
  }

  lemma RotationTransitive<T>(s: seq<T>, t: seq<T>, u: seq<T>)
    requires Rotation(s, t) && Rotation(t, u)
    ensures Rotation(s, u)
  {
    var k: nat :| RotatedBy(s, t, k);
    var m: nat :| RotatedBy(t, u, m);
    RotateTwice(s, t, u, k, m);
  }

  lemma RotateTwice<T>(s: seq<T>, t: seq<T>, u: seq<T>, k: nat, m: nat)
    requires RotatedBy(s, t, k) && RotatedBy(t, u, m)
    ensures RotatedBy(s, u, if k + m < |s| then k + m else k + m - |s|)
  {
    if k + m < |s| {
      assert t[m..] == s[k+m..] + s[..k];
      assert t[..m] == s[k..k+m];
      assert s[..k] + s[k..k+m] == s[..k+m];
    } else {
      var r := k + m - |s|;
      assert t[m..] == s[r..k];
      assert t[..m] == s[k..] + s[..r];
      assert s[r..k] + s[k..] == s[r..];
    }
  }

  datatype RotatedResult = Answer(value: bool) | IndexError

  /** bindings/python/rad_util.py:761-775: doubles the first sequence and looks for the second at
      each place where its head occurs. Two empty sequences raise an exception. */
  method IsRotated<T(==)>(seq1: seq<T>, seq2: seq<T>) returns (r: RotatedResult)
    ensures r.IndexError? <==> seq1 == [] && seq2 == []
    ensures r.Answer? ==> (r.value <==> Rotation(seq1, seq2))
  {
    if |seq1| != |seq2| {
      return Answer(false);
    }
    if seq2 == [] {
      return IndexError;
    }
    var startIndexes: seq<nat> := [];
    var headItem := seq2[0];
    for index1 := 0 to |seq1|
      invariant forall k: nat :: k in startIndexes <==> k < index1 && seq1[k] == headItem
    {
      if seq1[index1] == headItem {
        startIndexes := startIndexes + [index1];
      }
    }
    var doubleSeq1 := seq1 + seq1;
    for j := 0 to |startIndexes|
      invariant forall i :: 0 <= i < j ==> !RotatedBy(seq1, seq2, startIndexes[i])
    {
      var index1 := startIndexes[j];
      assert index1 in startIndexes;
      assert doubleSeq1[index1..index1 + |seq1|] == seq1[index1..] + seq1[..index1];
      if doubleSeq1[index1..index1 + |seq1|] == seq2 {
        return Answer(true);
      }
    }
    if k: nat :| RotatedBy(seq1, seq2, k) {
      assert false;
    }
    return Answer(false);
  }

  // ----- the graph

  /** The edges of a dictionary from parents to children; a child need not be a key. */
  ghost function EdgesOf<T(!new)>(graph: map<T, seq<T>>): set<(T, T)> {
    set p, c | p in graph && c in graph[p] :: (p, c)
  }

  lemma EdgeInGraph<T(!new)>(graph: map<T, seq<T>>, p: T, c: T)
    ensures (p, c) in EdgesOf(graph) <==> p in graph && c in graph[p]
  {
  }

  ghost predicate SimplePath<T>(e: set<(T, T)>, p: seq<T>) {
    Walk(e, p) && Distinct(p)
  }

  ghost predicate Represented<T>(cycles: seq<seq<T>>, c: seq<T>) {
    exists i :: 0 <= i < |cycles| && Rotation(cycles[i], c)
  }

  ghost predicate NoTwoRotations<T>(cycles: seq<seq<T>>) {
    forall i, j :: 0 <= i < j < |cycles| ==> !Rotation(cycles[i], cycles[j])
  }

  ghost predicate AllCycles<T>(e: set<(T, T)>, cycles: seq<seq<T>>) {
    forall i :: 0 <= i < |cycles| ==> ElementaryCycle(e, cycles[i])
  }

  /** Every cycle that `root` leads to is represented. */
  ghost predicate CoversFrom<T(!new)>(e: set<(T, T)>, cycles: seq<seq<T>>, root: T) {
    forall c :: ElementaryCycle(e, c) && Reaches(e, root, c[0]) ==> Represented(cycles, c)
  }

  // ----- from any node that leads to a cycle, some simple path runs into the cycle and round it

  /** A shortest approach: a simple path whose only node on the cycle is its last. */
  lemma {:induction false} Approach<T(!new)>(e: set<(T, T)>, w: seq<T>, c: seq<T>) returns (p: seq<T>)
    requires Walk(e, w) && w[|w|-1] in c
    ensures SimplePath(e, p) && p[0] == w[0] && p[|p|-1] in c
    ensures forall i :: 0 <= i < |p| - 1 ==> p[i] !in c
    decreases |w|
  {
    if i :| 0 <= i < |w| - 1 && w[i] in c {
      WalkSlice(e, w, 0, i + 1);
      p := Approach(e, w[..i+1], c);
    } else if !Distinct(w) {
      var i, j :| 0 <= i < j < |w| && w[i] == w[j];
      WalkSlice(e, w, 0, i + 1);
      WalkSlice(e, w, j, |w|);
      WalkJoin(e, w[..i+1], w[j..]);
      p := Approach(e, w[..i+1] + w[j..][1..], c);
    } else {
      p := w;
    }
  }

  lemma RunIntoCycle<T(!new)>(e: set<(T, T)>, root: T, c: seq<T>) returns (p: seq<T>, at: nat)
    requires ElementaryCycle(e, c) && Reaches(e, root, c[0])
    ensures SimplePath(e, p) && p[0] == root
    ensures at < |p| && (p[|p|-1], p[at]) in e && Rotation(p[at..], c)
  {
    var w :| WalkBetween(e, w, root, c[0]);
    var a := Approach(e, w, c);
    at := |a| - 1;
    var k :| 0 <= k < |c| && c[k] == a[at];
    var round := StartAt(e, c, k);
    hide Rotation, Reaches, WalkBetween;
    p := a + round[1..];
    EndsJoined(e, a, round);
    JoinDistinct(a, round, c);
  }

  lemma EndsJoined<T>(e: set<(T, T)>, a: seq<T>, round: seq<T>)
    requires Walk(e, a) && Walk(e, round) && a[|a|-1] == round[0]
    ensures var p := a + round[1..];
            Walk(e, p) && p[0] == a[0] && p[|p|-1] == round[|round|-1] && p[|a|-1..] == round && p[|a|-1] == round[0]
  {
    WalkJoin(e, a, round);
  }

  lemma StartAt<T>(e: set<(T, T)>, c: seq<T>, k: nat) returns (round: seq<T>)
    requires ElementaryCycle(e, c) && k < |c|
    ensures ElementaryCycle(e, round) && round[0] == c[k] && Rotation(round, c) && forall x :: x in round ==> x in c
  {
    round := c[k..] + c[..k];
    assert Rotation(c, round) by { assert RotatedBy(c, round, k); }
    RotationSymmetric(c, round);
    CycleFrom(e, c, k);
  }

  lemma JoinDistinct<T>(a: seq<T>, round: seq<T>, c: seq<T>)
    requires a != [] && round != [] && a[|a|-1] == round[0] && Distinct(a) && Distinct(round)
    requires (forall x :: x in round ==> x in c) && forall i :: 0 <= i < |a| - 1 ==> a[i] !in c
    ensures Distinct(a + round[1..])
  {
    var p, at := a + round[1..], |a| - 1;
    forall i, j | 0 <= i < j < |p| ensures p[i] != p[j] {
      if i < at <= j {
        assert p[j] == round[j - at];
      } else if at <= i {
        assert p[i] == round[i - at] && p[j] == round[j - at];
      }
    }
  }

  lemma CycleFrom<T>(e: set<(T, T)>, c: seq<T>, k: nat)
    requires ElementaryCycle(e, c) && k < |c|
    ensures ElementaryCycle(e, c[k..] + c[..k])
    ensures forall x :: x in c[k..] + c[..k] ==> x in c
  {
    var r := c[k..] + c[..k];
    forall i | 0 < i < |r| ensures (r[i-1], r[i]) in e {
      if i == |c| - k {
        assert r[i-1] == c[|c|-1] && r[i] == c[0];
      } else if i < |c| - k {
        assert r[i-1] == c[k+i-1] && r[i] == c[k+i];
      } else {
        assert r[i] == c[i - (|c| - k)] && r[i-1] == c[i - (|c| - k) - 1];
      }
    }
    if k > 0 {
      assert r[|r|-1] == c[k-1] && r[0] == c[k];
    }
  }

  // ----- exploring the simple paths from one root with an explicit stack

  /** Each of the given children either extends `path` to a known path or closes a represented cycle. */
  ghost predicate ChildrenSeen<T(!new)>(cycles: seq<seq<T>>, known: set<seq<T>>, path: seq<T>, children: seq<T>) {
    forall c :: c in children ==>
      && (c !in path ==> path + [c] in known)
      && (forall i :: 0 <= i < |path| && path[i] == c ==> Represented(cycles, path[i..]))
  }

  ghost predicate Expanded<T(!new)>(graph: map<T, seq<T>>, cycles: seq<seq<T>>, known: set<seq<T>>, path: seq<T>)
    requires path != []
  {
    var last := path[|path|-1];
    last in graph ==> ChildrenSeen(cycles, known, path, graph[last])
  }

  lemma SeenMonotone<T(!new)>(cycles: seq<seq<T>>, more: seq<seq<T>>, known: set<seq<T>>, known': set<seq<T>>,
                              path: seq<T>, children: seq<T>)
    requires ChildrenSeen(cycles, known, path, children) && cycles <= more && known <= known'
    ensures ChildrenSeen(more, known', path, children)
  {
    forall c, i | c in children && 0 <= i < |path| && path[i] == c ensures Represented(more, path[i..]) {
    }
  }

  ghost predicate AllExpanded<T(!new)>(graph: map<T, seq<T>>, cycles: seq<seq<T>>,
                                           known: set<seq<T>>, done: set<seq<T>>)
  {
    forall p :: p in done ==> p != [] && Expanded(graph, cycles, known, p)
  }

  lemma {:induction false} AllPathsDone<T(!new)>(graph: map<T, seq<T>>, cycles: seq<seq<T>>,
                                                done: set<seq<T>>, p: seq<T>)
    requires AllExpanded(graph, cycles, done, done) && SimplePath(EdgesOf(graph), p) && [p[0]] in done
    ensures p in done
    decreases |p|
  {
    if |p| == 1 {
      assert p == [p[0]];
    } else {
      var q, c := p[..|p|-1], p[|p|-1];
      AllPathsDone(graph, cycles, done, q);
      assert (p[|p|-2], p[|p|-1]) in EdgesOf(graph);
      assert p == q + [c];
    }
  }

  /** Once nothing is left on the stack, no cycle the root leads to has been missed. */
  lemma ExploredCovers<T(!new)>(graph: map<T, seq<T>>, cycles: seq<seq<T>>, done: set<seq<T>>, root: T)
    requires AllExpanded(graph, cycles, done, done) && [root] in done
    ensures CoversFrom(EdgesOf(graph), cycles, root)
  {
    var e := EdgesOf(graph);
    forall c | ElementaryCycle(e, c) && Reaches(e, root, c[0]) ensures Represented(cycles, c) {
      var p, at := RunIntoCycle(e, root, c);
      AllPathsDone(graph, cycles, done, p);
      EdgeInGraph(graph, p[|p|-1], p[at]);
      assert Expanded(graph, cycles, done, p);
      assert Represented(cycles, p[at..]);
      var i :| 0 <= i < |cycles| && Rotation(cycles[i], p[at..]);
      RotationTransitive(cycles[i], p[at..], c);
    }
  }

  lemma ExpandedMonotone<T(!new)>(graph: map<T, seq<T>>, cycles: seq<seq<T>>, more: seq<seq<T>>,
                                  known: set<seq<T>>, known': set<seq<T>>, done: set<seq<T>>)
    requires AllExpanded(graph, cycles, known, done) && cycles <= more && known <= known'
    ensures AllExpanded(graph, more, known', done)
  {
    forall p | p in done ensures p != [] && Expanded(graph, more, known', p) {
      if p[|p|-1] in graph {
        SeenMonotone(cycles, more, known, known', p, graph[p[|p|-1]]);
      }
    }
  }

  lemma CoversMonotone<T(!new)>(e: set<(T, T)>, cycles: seq<seq<T>>, more: seq<seq<T>>, root: T)
    requires CoversFrom(e, cycles, root) && cycles <= more
    ensures CoversFrom(e, more, root)
  {
    forall c | ElementaryCycle(e, c) && Reaches(e, root, c[0]) ensures Represented(more, c) {
    }
  }

  // ----- termination measure: the paths still to come below a stacked path

  ghost function Times(k: nat, unit: nat): nat {
    if k == 0 then 0 else Times(k - 1, unit) + unit
  }

  lemma {:induction false} TimesMonotone(k: nat, m: nat, unit: nat)
    requires k <= m
    ensures Times(k, unit) <= Times(m, unit)
    decreases m
  {
    if k < m {
      TimesMonotone(k, m - 1, unit);
    }
  }

  /** Size of a tree of branching `degree` that stops at depth `nodes`, from depth `len` down. */
  ghost function Below(degree: nat, nodes: nat, len: nat): nat
    decreases nodes + 1 - len
  {
    if len > nodes then 0 else 1 + Times(degree, Below(degree, nodes, len + 1))
  }

  ghost function Pending<T>(degree: nat, nodes: nat, paths: seq<seq<T>>): nat {
    if paths == [] then 0
    else Pending(degree, nodes, paths[..|paths|-1]) + Below(degree, nodes, |paths[|paths|-1]|)
  }

  ghost predicate Bounded<T(!new)>(graph: map<T, seq<T>>, degree: nat, nodes: set<T>) {
    forall p :: p in graph ==> p in nodes && |graph[p]| <= degree && forall c :: c in graph[p] ==> c in nodes
  }

  lemma {:induction false} Bounds<T(!new)>(graph: map<T, seq<T>>, todo: set<T>) returns (degree: nat, nodes: set<T>)
    requires todo <= graph.Keys
    ensures graph.Keys <= nodes
    ensures forall p :: p in todo ==> |graph[p]| <= degree && forall c :: c in graph[p] ==> c in nodes
    decreases todo
  {
    if todo == {} {
      return 0, graph.Keys;
    }
    var p :| p in todo;
    degree, nodes := Bounds(graph, todo - {p});
    degree := if degree < |graph[p]| then |graph[p]| else degree;
    nodes := nodes + Elements(graph[p]);
  }

  // ----- the algorithm

  ghost predicate StackFrom<T>(e: set<(T, T)>, root: T, paths: seq<seq<T>>) {
    forall i :: 0 <= i < |paths| ==> SimplePath(e, paths[i]) && paths[i][0] == root
  }

  ghost predicate VisitedFrom<T(!new)>(e: set<(T, T)>, roots: set<T>, visited: set<T>) {
    forall v :: v in visited ==> exists r :: r in roots && Reaches(e, r, v)
  }

  ghost predicate Listed<T>(e: set<(T, T)>, cycles: seq<seq<T>>) {
    AllCycles(e, cycles) && NoTwoRotations(cycles)
  }

  /** Lines 371-378: keeps the cycle unless an earlier one is a rotation of it. */
  method AddCycle<T(==, !new)>(ghost e: set<(T, T)>, cycles0: seq<seq<T>>, cycle: seq<T>) returns (cycles: seq<seq<T>>)
    requires Listed(e, cycles0) && ElementaryCycle(e, cycle)
    ensures Listed(e, cycles) && cycles0 <= cycles && Represented(cycles, cycle)
  {
    for k := 0 to |cycles0|
      invariant forall i :: 0 <= i < k ==> !Rotation(cycles0[i], cycle)
    {
      var isDup := IsRotated(cycles0[k], cycle);
      if isDup == Answer(true) {
        return cycles0;
      }
    }
    cycles := cycles0 + [cycle];
    assert Rotation(cycle, cycle) by { assert RotatedBy(cycle, cycle, 0); }
    assert Rotation(cycles[|cycles0|], cycle);
  }

  /** The first position of `x` in `s`. */
  function IndexOf<T(==)>(s: seq<T>, x: T): (i: nat)
    requires x in s
    ensures i < |s| && s[i] == x && x !in s[..i]
  {
    if s[0] == x then 0 else 1 + IndexOf(s[1..], x)
  }

  /** Marking the child visited is right, and if it is new it extends the path. */
  lemma ExtendPath<T(!new)>(e: set<(T, T)>, path: seq<T>, c: T, roots: set<T>, visited: set<T>, paths: seq<seq<T>>)
    requires SimplePath(e, path) && (path[|path|-1], c) in e && path[0] in roots
    requires VisitedFrom(e, roots, visited) && StackFrom(e, path[0], paths)
    ensures VisitedFrom(e, roots, visited + {c})
    ensures c !in path ==> StackFrom(e, path[0], paths + [path + [c]])
  {
    assert WalkBetween(e, path + [c], path[0], c);
  }

  lemma NoneSeen<T(!new)>(cycles: seq<seq<T>>, known: set<seq<T>>, path: seq<T>)
    ensures ChildrenSeen(cycles, known, path, [])
  {
  }

  lemma SeenChild<T(!new)>(cycles: seq<seq<T>>, known: set<seq<T>>, path: seq<T>, children: seq<T>, c: T)
    requires ChildrenSeen(cycles, known, path, children) && Distinct(path)
    requires if c in path then Represented(cycles, path[IndexOf(path, c)..]) else path + [c] in known
    ensures ChildrenSeen(cycles, known, path, children + [c])
  {
  }

  /** Lines 355-385: looks at every child of the last node of a path taken off the stack. */
  method ExpandPath<T(==, !new)>(graph: map<T, seq<T>>, cycles0: seq<seq<T>>, visited0: set<T>, rest: seq<seq<T>>,
                                 path: seq<T>, ghost roots: set<T>, ghost degree: nat, ghost nodes: set<T>)
    returns (cycles: seq<seq<T>>, visited: set<T>, paths: seq<seq<T>>)
    requires Bounded(graph, degree, nodes) && Listed(EdgesOf(graph), cycles0)
    requires SimplePath(EdgesOf(graph), path) && StackFrom(EdgesOf(graph), path[0], rest) && path[0] in roots
    requires VisitedFrom(EdgesOf(graph), roots, visited0)
    ensures Listed(EdgesOf(graph), cycles) && cycles0 <= cycles && rest <= paths
    ensures StackFrom(EdgesOf(graph), path[0], paths) && VisitedFrom(EdgesOf(graph), roots, visited)
    ensures Expanded(graph, cycles, Elements(paths), path)
    ensures Pending(degree, |nodes|, paths)
      <= Pending(degree, |nodes|, rest) + Times(degree, Below(degree, |nodes|, |path| + 1))
  {
    hide Listed, Bounded, EdgesOf, StackFrom, VisitedFrom, ChildrenSeen, ElementaryCycle, Represented, Below;
    cycles, visited, paths := cycles0, visited0, rest;
    var last := path[|path|-1];
    if last !in graph {
      return;
    }
    ghost var e, base, unit := EdgesOf(graph), Pending(degree, |nodes|, rest), Below(degree, |nodes|, |path| + 1);
    var children := graph[last];
    NoneSeen(cycles, Elements(paths), path);
    for k := 0 to |children|
      invariant Listed(e, cycles) && cycles0 <= cycles && rest <= paths
      invariant StackFrom(e, path[0], paths) && VisitedFrom(e, roots, visited)
      invariant ChildrenSeen(cycles, Elements(paths), path, children[..k])
      invariant Pending(degree, |nodes|, paths) <= base + Times(k, unit)
    {
      var child := children[k];
      EdgeInGraph(graph, last, child);
      ExtendPath(e, path, child, roots, visited, paths);
      ghost var before, known := cycles, Elements(paths);
      if child in path {
        cycles := AddCycle(e, cycles, path[IndexOf(path, child)..]);
      } else {
        paths := paths + [path + [child]];
        visited := visited + {child};
        assert paths[|paths|-1] in Elements(paths);
      }
      SeenMonotone(before, cycles, known, Elements(paths), path, children[..k]);
      SeenChild(cycles, Elements(paths), path, children[..k], child);
      assert children[..k+1] == children[..k] + [child];
    }
    assert children[..|children|] == children;
    BoundedDegree(graph, degree, nodes, last);
    TimesMonotone(|children|, degree, unit);
  }

  lemma BoundedDegree<T(!new)>(graph: map<T, seq<T>>, degree: nat, nodes: set<T>, p: T)
    requires Bounded(graph, degree, nodes) && p in graph
    ensures |graph[p]| <= degree
  {
  }

  lemma {:induction false} PathInNodes<T(!new)>(graph: map<T, seq<T>>, degree: nat, nodes: set<T>, path: seq<T>)
    requires Bounded(graph, degree, nodes) && SimplePath(EdgesOf(graph), path) && path[0] in nodes
    ensures |path| <= |nodes|
  {
    forall x | x in path ensures x in nodes {
      var i :| 0 <= i < |path| && path[i] == x;
      if i > 0 {
        assert (path[i-1], path[i]) in EdgesOf(graph);
      }
    }
    DistinctBound(path, nodes);
  }

  /** Lines 351-385: one root, with its explicit stack of paths. */
  method ExploreRoot<T(==, !new)>(graph: map<T, seq<T>>, cycles0: seq<seq<T>>, visited0: set<T>, root: T,
                                  ghost roots: set<T>, ghost degree: nat, ghost nodes: set<T>)
    returns (cycles: seq<seq<T>>, visited: set<T>)
    requires Bounded(graph, degree, nodes) && Listed(EdgesOf(graph), cycles0) && root in nodes && root in roots
    requires VisitedFrom(EdgesOf(graph), roots, visited0)
    ensures Listed(EdgesOf(graph), cycles) && cycles0 <= cycles && VisitedFrom(EdgesOf(graph), roots, visited)
    ensures CoversFrom(EdgesOf(graph), cycles, root)
  {
    hide Listed, Bounded, EdgesOf, AllExpanded, VisitedFrom;
    cycles, visited := cycles0, visited0;
    ghost var e, done: set<seq<T>> := EdgesOf(graph), {};
    var paths := [[root]];
    assert AllExpanded(graph, cycles, done + Elements(paths), done)
      by { NoneExpanded(graph, cycles, done + Elements(paths)); }
    assert paths[0] in Elements(paths);
    while paths != []
      invariant Listed(e, cycles) && cycles0 <= cycles && StackFrom(e, root, paths) && VisitedFrom(e, roots, visited)
      invariant AllExpanded(graph, cycles, done + Elements(paths), done)
      invariant [root] in done + Elements(paths)
      decreases Pending(degree, |nodes|, paths)
    {
      var path, rest := paths[|paths|-1], paths[..|paths|-1];
      ghost var before, known := cycles, done + Elements(paths);
      PathInNodes(graph, degree, nodes, path);
      cycles, visited, paths := ExpandPath(graph, cycles, visited, rest, path, roots, degree, nodes);
      assert known <= done + {path} + Elements(paths);
      ExpandedMonotone(graph, before, cycles, known, done + {path} + Elements(paths), done);
      OneMoreExpanded(graph, cycles, done, Elements(paths), path);
      done := done + {path};
    }
    assert done + Elements(paths) == done;
    ExploredCovers(graph, cycles, done, root);
  }

  lemma NoneExpanded<T(!new)>(graph: map<T, seq<T>>, cycles: seq<seq<T>>, known: set<seq<T>>)
    ensures AllExpanded(graph, cycles, known, {})
  {
  }

  lemma OneMoreExpanded<T(!new)>(graph: map<T, seq<T>>, cycles: seq<seq<T>>,
                                  done: set<seq<T>>, stacked: set<seq<T>>, path: seq<T>)
    requires AllExpanded(graph, cycles, done + {path} + stacked, done)
    requires path != [] && Expanded(graph, cycles, stacked, path)
    ensures AllExpanded(graph, cycles, done + {path} + stacked, done + {path})
  {
    if path[|path|-1] in graph {
      SeenMonotone(cycles, cycles, stacked, done + {path} + stacked, path, graph[path[|path|-1]]);
    }
  }

  /** Every elementary cycle is in the list, up to where it starts, and none is there twice. */
  ghost predicate ListsEveryCycleOnce<T(!new)>(e: set<(T, T)>, cycles: seq<seq<T>>) {
    && AllCycles(e, cycles)
    && (forall i, j :: 0 <= i < |cycles| && 0 <= j < |cycles| && i != j ==> !Rotation(cycles[i], cycles[j]))
    && (forall c :: ElementaryCycle(e, c) ==> Represented(cycles, c))
  }

  /** Lines 343-385. `keys` is the order in which the dictionary hands out its keys. A key that was
      already visited is not explored again, and still no cycle is missed. */
  method Run<T(==, !new)>(graph: map<T, seq<T>>, keys: seq<T>) returns (cycles: seq<seq<T>>)
    requires Distinct(keys) && Elements(keys) == graph.Keys
    ensures ListsEveryCycleOnce(EdgesOf(graph), cycles)
  {
    hide Listed, Bounded, EdgesOf, CoversFrom;
    ghost var e, roots: set<T> := EdgesOf(graph), {};
    ghost var degree, nodes := Bounds(graph, graph.Keys);
    assert Bounded(graph, degree, nodes) by { BoundedAll(graph, degree, nodes); }
    assert Listed(e, []) by { NothingListed(e); }
    cycles := [];
    var visited: set<T> := {};
    for k := 0 to |keys|
      invariant Listed(e, cycles) && VisitedFrom(e, roots, visited)
      invariant forall r :: r in roots ==> CoversFrom(e, cycles, r)
      invariant forall i :: 0 <= i < k ==> CoversFrom(e, cycles, keys[i])
    {
      var parent := keys[k];
      if parent in visited {
        CoveredByVisit(e, cycles, roots, visited, parent);
        continue;
      }
      ghost var before := cycles;
      roots := roots + {parent};
      assert parent in Elements(keys);
      cycles, visited := ExploreRoot(graph, cycles, visited, parent, roots, degree, nodes);
      forall r | CoversFrom(e, before, r) ensures CoversFrom(e, cycles, r) {
        CoversMonotone(e, before, cycles, r);
      }
    }
    Complete(graph, keys, cycles);
  }

  lemma BoundedAll<T(!new)>(graph: map<T, seq<T>>, degree: nat, nodes: set<T>)
    requires graph.Keys <= nodes
    requires forall p :: p in graph.Keys ==> |graph[p]| <= degree && forall c :: c in graph[p] ==> c in nodes
    ensures Bounded(graph, degree, nodes)
  {
  }

  lemma NothingListed<T(!new)>(e: set<(T, T)>)
    ensures Listed(e, [])
  {
  }

  /** The shortcut: what a visited node leads to, an earlier root leads to. */
  lemma CoveredByVisit<T(!new)>(e: set<(T, T)>, cycles: seq<seq<T>>, roots: set<T>, visited: set<T>, node: T)
    requires VisitedFrom(e, roots, visited) && node in visited
    requires forall r :: r in roots ==> CoversFrom(e, cycles, r)
    ensures CoversFrom(e, cycles, node)
  {
    var r :| r in roots && Reaches(e, r, node);
    assert CoversFrom(e, cycles, r);
    forall c | ElementaryCycle(e, c) && Reaches(e, node, c[0]) ensures Represented(cycles, c) {
      ReachesTrans(e, r, node, c[0]);
    }
  }

  lemma Complete<T(!new)>(graph: map<T, seq<T>>, keys: seq<T>, cycles: seq<seq<T>>)
    requires Elements(keys) == graph.Keys && Listed(EdgesOf(graph), cycles)
    requires forall i :: 0 <= i < |keys| ==> CoversFrom(EdgesOf(graph), cycles, keys[i])
    ensures ListsEveryCycleOnce(EdgesOf(graph), cycles)
  {
    var e := EdgesOf(graph);
    forall c | ElementaryCycle(e, c) ensures Represented(cycles, c) {
      if |c| > 1 {
        assert (c[0], c[1]) in e;
      }
      var i :| 0 <= i < |keys| && keys[i] == c[0];
      CycleConnected(e, c, 0, 0);
      assert CoversFrom(e, cycles, keys[i]);
    }
    forall i, j | 0 <= i < |cycles| && 0 <= j < |cycles| && i != j ensures !Rotation(cycles[i], cycles[j]) {
      if Rotation(cycles[i], cycles[j]) {
        RotationSymmetric(cycles[i], cycles[j]);
      }
    }
  }
}
