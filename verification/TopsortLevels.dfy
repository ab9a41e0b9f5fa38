/** Dependency sorting level by level: bindings/python/topsort.py:114-232.
    The generator is modelled fully consumed: the list of levels it yields and the way it ends. */
module TopsortLevels {
  import opened Common
  import opened Graphs
  import opened Topsort

  datatype LevelsEnd<T> =
    | StopIteration
    | LevelsCycleError(numParents: map<T, int>, children: map<T, seq<T>>)

  function Flatten<T>(levels: seq<seq<T>>): seq<T> {
    if levels == [] then [] else Flatten(levels[..|levels|-1]) + levels[|levels|-1]
  }

  lemma {:induction false} FlattenMembers<T>(levels: seq<seq<T>>, x: T)
    ensures x in Flatten(levels) <==> exists d :: 0 <= d < |levels| && x in levels[d]
    decreases |levels|
  {
    if levels != [] {
      FlattenMembers(levels[..|levels|-1], x);
    }
  }

  ghost predicate WalkTo<T>(e: set<(T, T)>, w: seq<T>, x: T) {
    Walk(e, w) && w[|w|-1] == x
  }

  /** The longest chain of predecessors that ends at `x` has `d` steps. */
  ghost predicate LongestChain<T(!new)>(e: set<(T, T)>, x: T, d: nat) {
    && (exists w :: WalkTo(e, w, x) && |w| == d + 1)
    && (forall w :: WalkTo(e, w, x) ==> |w| <= d + 1)
  }

  /** `levels` sorts `items` by the length of their longest predecessor chain and leaves out
      exactly the items below a cycle, whose chains have no longest one. */
  ghost predicate SortedByDepth<T(!new)>(e: set<(T, T)>, items: set<T>, levels: seq<seq<T>>) {
    && (forall d :: 0 <= d < |levels| ==> levels[d] != [])
    && Distinct(Flatten(levels)) && ParentsFirst(e, Flatten(levels))
    && (forall x :: x in Flatten(levels) <==> x in items && !BelowCycle(e, x))
    && (forall d, x :: 0 <= d < |levels| && x in levels[d] ==> LongestChain(e, x, d))
  }

  /** With `SortedByDepth` an item is in level `d` if and only if its longest chain has `d` steps. */
  lemma LevelIsDepth<T(!new)>(e: set<(T, T)>, items: set<T>, levels: seq<seq<T>>, x: T, d: nat)
    requires SortedByDepth(e, items, levels) && x in items
    ensures (d < |levels| && x in levels[d]) <==> LongestChain(e, x, d)
  {
    if LongestChain(e, x, d) {
      if BelowCycle(e, x) {
        var w := EndlessChain(e, x, d + 2);
        assert false;
      }
      FlattenMembers(levels, x);
      var k :| 0 <= k < |levels| && x in levels[k];
      var v :| WalkTo(e, v, x) && |v| == k + 1;
      var w :| WalkTo(e, w, x) && |w| == d + 1;
    }
  }

  /** Below a cycle there are predecessor chains of every length. */
  lemma {:induction false} EndlessChain<T(!new)>(e: set<(T, T)>, x: T, n: nat) returns (w: seq<T>)
    requires BelowCycle(e, x)
    ensures WalkTo(e, w, x) && |w| > n
    decreases n
  {
    var c :| ElementaryCycle(e, c) && Reaches(e, c[0], x);
    if n == 0 {
      return [x];
    }
    var v :| WalkBetween(e, v, c[0], x);
    var last := |c| - 1;
    CycleConnected(e, c, 0, last);
    assert BelowCycle(e, c[last]);
    var u := EndlessChain(e, c[last], n - 1);
    w := u + v;
  }

  // ----- the algorithm

  /** State of the generator after yielding `levels`. */
  ghost predicate LevelsSoFar<T(!new)>(pairs: seq<(T, T)>, items: set<T>, levels: seq<seq<T>>,
                                       numParents: map<T, int>, children: map<T, seq<T>>)
  {
    && Tables(numParents, children, pairs, Elements(Flatten(levels)))
    && Elements(Flatten(levels)) <= items
    && numParents.Keys == items - Elements(Flatten(levels))
    && Placed(Elements(pairs), items, levels)
  }

  /** What the levels yielded so far satisfy, and that nobody still waiting could have been
      in the last of them. */
  ghost predicate Placed<T(!new)>(e: set<(T, T)>, items: set<T>, levels: seq<seq<T>>) {
    && (forall d :: 0 <= d < |levels| ==> levels[d] != [])
    && Distinct(Flatten(levels)) && ParentsFirst(e, Flatten(levels))
    && (forall d, x :: 0 <= d < |levels| && x in levels[d] ==> LongestChain(e, x, d))
    && (levels != [] ==> forall x :: x in items && x !in Flatten(levels) ==>
          exists p :: (p, x) in e && p !in Flatten(levels[..|levels|-1]))
  }

  /** `level` is a complete next level: the unplaced items whose parents are all placed. */
  ghost predicate NextLevel<T(!new)>(e: set<(T, T)>, items: set<T>, levels: seq<seq<T>>, level: seq<T>) {
    && Distinct(level)
    && forall x :: x in level <==>
      x in items && x !in Flatten(levels) && forall p :: (p, x) in e ==> p in Flatten(levels)
  }

  lemma DepthOfNext<T(!new)>(e: set<(T, T)>, items: set<T>, levels: seq<seq<T>>, level: seq<T>, x: T)
    requires Placed(e, items, levels) && NextLevel(e, items, levels, level) && x in level
    ensures LongestChain(e, x, |levels|)
  {
    forall w | WalkTo(e, w, x) ensures |w| <= |levels| + 1 {
      if |w| > 1 {
        var q := w[|w|-2];
        assert (q, w[|w|-1]) in e;
        FlattenMembers(levels, q);
        var k :| 0 <= k < |levels| && q in levels[k];
        assert WalkTo(e, w[..|w|-1], q);
      }
    }
    if levels == [] {
      assert WalkTo(e, [x], x);
    } else {
      var last := |levels| - 1;
      var p :| (p, x) in e && p !in Flatten(levels[..last]);
      assert p in levels[last];
      var w :| WalkTo(e, w, p) && |w| == last + 1;
      assert WalkTo(e, w + [x], x);
    }
  }

  lemma PlaceNext<T(!new)>(e: set<(T, T)>, items: set<T>, levels: seq<seq<T>>, level: seq<T>)
    requires Placed(e, items, levels) && NextLevel(e, items, levels, level) && level != []
    ensures Placed(e, items, levels + [level])
    ensures Flatten(levels + [level]) == Flatten(levels) + level
  {
    var after := levels + [level];
    var flat := Flatten(levels);
    assert after[..|levels|] == levels;
    forall p, j | 0 <= j < |flat + level| && (p, (flat + level)[j]) in e ensures p in (flat + level)[..j] {
      if j < |flat| {
        assert (flat + level)[..j] == flat[..j];
      } else {
        assert (flat + level)[j] in level;
        assert flat <= (flat + level)[..j];
      }
    }
    forall d, x | 0 <= d < |after| && x in after[d] ensures LongestChain(e, x, d) {
      if d == |levels| {
        DepthOfNext(e, items, levels, level, x);
      }
    }
    forall x | x in items && x !in flat + level ensures exists p :: (p, x) in e && p !in flat {
      assert x !in level && x !in flat;
    }
    DistinctConcat(flat, level);
  }

  /** Lines 203-232. The two tables may come from anywhere, as long as the counts agree with the
      child lists; `pairs` names the relation they describe. */
  method SortLevelsCore<T(==, !new)>(numParents0: map<T, int>, children0: map<T, seq<T>>, ghost pairs: seq<(T, T)>)
    returns (levels: seq<seq<T>>, end: LevelsEnd<T>)
    requires Tables(numParents0, children0, pairs, {})
    ensures SortedByDepth(Elements(pairs), numParents0.Keys, levels)
    ensures end.LevelsCycleError? <==> HasCycle(Elements(pairs))
    ensures end.LevelsCycleError? ==>
              && Tables(end.numParents, end.children, pairs, Elements(Flatten(levels)))
              && end.numParents.Keys == numParents0.Keys - Elements(Flatten(levels))
  {
    hide Tables, Placed, NextLevel, ClosedUnderParents, SortedByDepth, ParentsFirst, HasCycle, Items;
    var numParents, children := numParents0, children0;
    ghost var items := numParents0.Keys;
    levels := [];
    StartOfLevels(numParents, children, pairs);
    while true
      invariant LevelsSoFar(pairs, items, levels, numParents, children)
      decreases numParents.Keys
    {
      var level := ParentlessKeys(numParents);
      if level == [] {
        break;
      }
      CompleteLevel(pairs, items, levels, numParents, children, level);
      PlacedClosed(Elements(pairs), Flatten(levels));
      PlaceNext(Elements(pairs), items, levels, level);
      assert level[0] in numParents;
      assert Elements(Flatten(levels + [level])) == Elements(Flatten(levels)) + Elements(level);
      numParents, children := RemoveLevel(pairs, Elements(Flatten(levels)), numParents, children, level);
      levels := levels + [level];
    }
    NothingMore(pairs, items, levels, numParents, children);
    if numParents != map[] {
      end := LevelsCycleError(numParents, children);
    } else {
      end := StopIteration;
    }
  }

  lemma StartOfLevels<T(!new)>(numParents: map<T, int>, children: map<T, seq<T>>, pairs: seq<(T, T)>)
    requires Tables(numParents, children, pairs, {})
    ensures LevelsSoFar(pairs, numParents.Keys, [], numParents, children)
    ensures Items(pairs) <= numParents.Keys
  {
    assert Elements<T>(Flatten([])) == {};
  }

  /** Lines 157-172. */
  method SortLevels<T(==, !new)>(pairs: seq<(T, T)>) returns (levels: seq<seq<T>>, end: LevelsEnd<T>)
    ensures SortedByDepth(Elements(pairs), Items(pairs), levels)
    ensures end.LevelsCycleError? <==> HasCycle(Elements(pairs))
    ensures end.LevelsCycleError? ==>
              && Tables(end.numParents, end.children, pairs, Elements(Flatten(levels)))
              && end.numParents.Keys == Items(pairs) - Elements(Flatten(levels))
  {
    var numParents, children := CountParents(pairs);
    levels, end := SortLevelsCore(numParents, children, pairs);
  }

  /** Both functions remove the same elements; the flattened levels are an answer `topsort` may give. */
  lemma LevelsRemoveTheSame<T(!new)>(pairs: seq<(T, T)>, answer: seq<T>, levels: seq<seq<T>>)
    requires MaximalOrder(pairs, answer) && SortedByDepth(Elements(pairs), Items(pairs), levels)
    ensures MaximalOrder(pairs, Flatten(levels)) && multiset(Flatten(levels)) == multiset(answer)
  {
    SameMembers(Flatten(levels), answer);
  }

  lemma SameMembers<T(!new)>(s: seq<T>, t: seq<T>)
    requires Distinct(s) && Distinct(t) && forall x :: x in s <==> x in t
    ensures multiset(s) == multiset(t)
  {
    forall x ensures multiset(s)[x] == multiset(t)[x] {
      OnceEach(s, x);
      OnceEach(t, x);
    }
  }

  lemma {:induction false} OnceEach<T>(s: seq<T>, x: T)
    requires Distinct(s)
    ensures multiset(s)[x] == if x in s then 1 else 0
    decreases |s|
  {
    if s != [] {
      OnceEach(s[..|s|-1], x);
      assert s == s[..|s|-1] + [s[|s|-1]];
    }
  }

  lemma CompleteLevel<T(!new)>(pairs: seq<(T, T)>, items: set<T>, levels: seq<seq<T>>,
                               numParents: map<T, int>, children: map<T, seq<T>>, level: seq<T>)
    requires LevelsSoFar(pairs, items, levels, numParents, children) && Distinct(level)
    requires forall x :: x in level <==> x in numParents && numParents[x] == 0
    ensures ParentsFirst(Elements(pairs), Flatten(levels))
    ensures NextLevel(Elements(pairs), items, levels, level)
  {
    forall x | x in numParents
      ensures x in level <==> forall p :: (p, x) in Elements(pairs) ==> p in Flatten(levels)
    {
      IndegreeZero(pairs, Elements(Flatten(levels)), x);
    }
  }

  ghost predicate ClosedUnderParents<T(!new)>(e: set<(T, T)>, gone: set<T>) {
    forall p, c :: (p, c) in e && c in gone ==> p in gone
  }

  lemma PlacedClosed<T(!new)>(e: set<(T, T)>, order: seq<T>)
    requires ParentsFirst(e, order)
    ensures ClosedUnderParents(e, Elements(order))
  {
    forall p, c | (p, c) in e && c in order ensures p in order {
      var j :| 0 <= j < |order| && order[j] == c;
      assert (p, order[j]) in e;
    }
  }

  /** Lines 217-224: takes a whole level out of both tables. */
  method RemoveLevel<T(==, !new)>(ghost pairs: seq<(T, T)>, ghost gone: set<T>, numParents0: map<T, int>,
                                  children0: map<T, seq<T>>, level: seq<T>)
    returns (numParents: map<T, int>, children: map<T, seq<T>>)
    requires Tables(numParents0, children0, pairs, gone) && ClosedUnderParents(Elements(pairs), gone)
    requires Distinct(level) && forall x :: x in level <==> x in numParents0 && numParents0[x] == 0
    ensures Tables(numParents, children, pairs, gone + Elements(level))
    ensures numParents.Keys == numParents0.Keys - Elements(level)
  {
    hide Tables, ClosedUnderParents;
    numParents, children := numParents0, children0;
    ghost var done := {};
    assert gone + done == gone;
    for k := 0 to |level|
      invariant done == Elements(level[..k])
      invariant Tables(numParents, children, pairs, gone + done)
      invariant ClosedUnderParents(Elements(pairs), gone + done)
      invariant numParents.Keys == numParents0.Keys - done
      invariant forall j :: k <= j < |level| ==> level[j] in numParents && numParents[level[j]] == 0
    {
      numParents, children := RemoveParent(pairs, gone + done, numParents, children, level[k]);
      assert gone + done + {level[k]} == gone + (done + {level[k]});
      done := done + {level[k]};
    }
    assert level[..|level|] == level;
  }

  method RemoveParent<T(==, !new)>(ghost pairs: seq<(T, T)>, ghost gone: set<T>, numParents0: map<T, int>,
                                   children0: map<T, seq<T>>, parent: T)
    returns (numParents: map<T, int>, children: map<T, seq<T>>)
    requires Tables(numParents0, children0, pairs, gone) && ClosedUnderParents(Elements(pairs), gone)
    requires parent in numParents0 && numParents0[parent] == 0
    ensures Tables(numParents, children, pairs, gone + {parent})
    ensures ClosedUnderParents(Elements(pairs), gone + {parent})
    ensures numParents.Keys == numParents0.Keys - {parent}
    ensures forall x :: x in numParents && numParents0[x] == 0 ==> numParents[x] == 0
  {
    hide Indegree, ChildList, Items, Parents;
    IndegreeZero(pairs, gone, parent);
    Strangers(pairs);
    numParents, children := numParents0 - {parent}, children0;
    if parent in children {
      var kids := children[parent];
      for j := 0 to |kids|
        invariant numParents.Keys == numParents0.Keys - {parent}
        invariant Knocked(pairs, gone, parent, j, numParents)
      {
        var child := kids[j];
        ChildListMembers(pairs, parent);
        assert (parent, child) in Elements(pairs);
        ItemOfPair(pairs, parent, child);
        KnockedStep(pairs, gone, parent, j, numParents);
        numParents := numParents[child := numParents[child] - 1];
      }
      children := children - {parent};
    } else {
      assert ChildList(pairs, parent) == [];
    }
    KnockedAll(pairs, gone, parent, numParents);
    ZerosStay(pairs, gone, parent, numParents0.Keys);
  }

  /** A count of 0 cannot be lowered. */
  lemma ZerosStay<T(!new)>(pairs: seq<(T, T)>, gone: set<T>, parent: T, items: set<T>)
    requires parent !in gone
    ensures forall x :: x in items && Indegree(pairs, gone, x) == 0 ==> Indegree(pairs, gone + {parent}, x) == 0
  {
    forall x | x in items && Indegree(pairs, gone, x) == 0 ensures Indegree(pairs, gone + {parent}, x) == 0 {
      KnockDown(pairs, gone, parent, x);
    }
  }

  lemma ItemOfPair<T>(pairs: seq<(T, T)>, p: T, c: T)
    requires (p, c) in pairs
    ensures p in Items(pairs) && c in Items(pairs)
  {
    assert (p, c).0 in Items(pairs) && (p, c).1 in Items(pairs);
  }

  /** The generator stops when no count is 0: what is left supports itself. */
  lemma NothingMore<T(!new)>(pairs: seq<(T, T)>, items: set<T>, levels: seq<seq<T>>,
                             numParents: map<T, int>, children: map<T, seq<T>>)
    requires LevelsSoFar(pairs, items, levels, numParents, children)
    requires forall x :: x in numParents ==> numParents[x] != 0
    requires Items(pairs) <= items
    ensures SortedByDepth(Elements(pairs), items, levels)
    ensures HasCycle(Elements(pairs)) <==> numParents != map[]
  {
    hide Items, BelowCycle, HasCycle, SelfSupported, ParentsFirst, Distinct, LongestChain;
    var e, flat := Elements(pairs), Flatten(levels);
    LeftoverSupported(pairs, Elements(flat), numParents, children);
    LeftoverIsBelowCycle(e, items, flat);
    forall p, c | (p, c) in e ensures p in items && c in items {
      ItemOfPair(pairs, p, c);
    }
    CycleMeansBelow(e, items);
    assert forall x :: x in numParents.Keys <==> x in items && BelowCycle(e, x);
  }
}
