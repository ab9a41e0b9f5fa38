/** Dependency sorting of (parent, child) pairs: bindings/python/topsort.py.
    A dictionary is a `map`; its unspecified key order is an arbitrary choice, so what is proved
    holds for every key order. The exception becomes the `CycleError` outcome. */
module Topsort {
  import opened Common
  import opened Graphs

  datatype Outcome<T> =
    | Sorted(answer: seq<T>)
    | CycleError(answer: seq<T>, numParents: map<T, int>, children: map<T, seq<T>>)

  function Parents<T>(pairs: seq<(T, T)>): set<T> {
    set p | p in pairs :: p.0
  }

  /** Every element mentioned in some pair. */
  function Items<T>(pairs: seq<(T, T)>): set<T> {
    Parents(pairs) + set p | p in pairs :: p.1
  }

  /** How many pairs name `x` as child of a parent outside `gone`; repeated pairs count repeatedly. */
  function Indegree<T(==)>(pairs: seq<(T, T)>, gone: set<T>, x: T): nat {
    if pairs == [] then 0
    else
      var (p, c) := pairs[|pairs|-1];
      Indegree(pairs[..|pairs|-1], gone, x) + if c == x && p !in gone then 1 else 0
  }

  function ChildList<T(==)>(pairs: seq<(T, T)>, parent: T): seq<T> {
    if pairs == [] then []
    else
      var (p, c) := pairs[|pairs|-1];
      ChildList(pairs[..|pairs|-1], parent) + if p == parent then [c] else []
  }

  lemma {:induction false} IndegreeZero<T(!new)>(pairs: seq<(T, T)>, gone: set<T>, x: T)
    ensures Indegree(pairs, gone, x) == 0 <==> forall p :: (p, x) in pairs ==> p in gone
  {
    if pairs != [] {
      var last, rest := pairs[|pairs|-1], pairs[..|pairs|-1];
      IndegreeZero(rest, gone, x);
      assert pairs == rest + [last];
      assert forall p :: (p, x) in pairs <==> (p, x) in rest || (p, x) == last;
    }
  }

  /** Removing a parent lowers the count of `x` by the number of times `x` is in its child list. */
  lemma {:induction false} KnockDown<T>(pairs: seq<(T, T)>, gone: set<T>, p: T, x: T)
    requires p !in gone
    ensures Indegree(pairs, gone + {p}, x) == Indegree(pairs, gone, x) - multiset(ChildList(pairs, p))[x]
  {
    if pairs != [] {
      KnockDown(pairs[..|pairs|-1], gone, p, x);
    }
  }

  lemma {:induction false} ChildListMembers<T(!new)>(pairs: seq<(T, T)>, p: T)
    ensures forall c :: c in ChildList(pairs, p) <==> (p, c) in pairs
  {
    if pairs != [] {
      var last, rest := pairs[|pairs|-1], pairs[..|pairs|-1];
      ChildListMembers(rest, p);
      assert pairs == rest + [last];
      assert forall c :: (p, c) in pairs <==> (p, c) in rest || (p, c) == last;
    }
  }

  // ----- the tables both functions work on

  /** The two tables describe `pairs` once the parents in `gone` have been taken out. */
  ghost predicate Tables<T(!new)>(numParents: map<T, int>, children: map<T, seq<T>>, pairs: seq<(T, T)>, gone: set<T>) {
    && (forall x :: x in numParents ==> x !in gone && numParents[x] == Indegree(pairs, gone, x))
    && (forall p :: p in children ==> p !in gone && children[p] == ChildList(pairs, p))
    && (forall p :: p in Parents(pairs) && p !in gone ==> p in children)
    && (forall x :: x in Items(pairs) && x !in gone ==> x in numParents)
  }

  ghost function Counts<T(!new)>(pairs: seq<(T, T)>): map<T, int> {
    map x | x in Items(pairs) :: Indegree(pairs, {}, x)
  }

  ghost function ChildLists<T(!new)>(pairs: seq<(T, T)>): map<T, seq<T>> {
    map p | p in Parents(pairs) :: ChildList(pairs, p)
  }

  function SetDefault<K, V>(m: map<K, V>, k: K, v: V): map<K, V> {
    if k in m then m else m[k := v]
  }

  method CountParents<T(==, !new)>(pairs: seq<(T, T)>) returns (numParents: map<T, int>, children: map<T, seq<T>>)
    ensures Tables(numParents, children, pairs, {})
    ensures numParents.Keys == Items(pairs) && children.Keys == Parents(pairs)
  {
    numParents, children := map[], map[];
    for n := 0 to |pairs|
      invariant numParents == Counts(pairs[..n])
      invariant children == ChildLists(pairs[..n])
    {
      var (parent, child) := pairs[n];
      assert pairs[..n+1] == pairs[..n] + [pairs[n]];
      CountStep(pairs[..n], parent, child);
      ChildStep(pairs[..n], parent, child);
      numParents := SetDefault(SetDefault(numParents, parent, 0), child, 0);
      numParents := numParents[child := numParents[child] + 1];
      children := SetDefault(children, parent, []);
      children := children[parent := children[parent] + [child]];
    }
    assert pairs[..|pairs|] == pairs;
  }

  lemma CountStep<T(!new)>(pairs: seq<(T, T)>, parent: T, child: T)
    ensures var m := SetDefault(SetDefault(Counts(pairs), parent, 0), child, 0);
            Counts(pairs + [(parent, child)]) == m[child := m[child] + 1]
  {
    ExtendItems(pairs, parent, child);
    Strangers(pairs);
    forall x {
      ExtendIndegree(pairs, parent, child, x);
    }
    hide Indegree, Items;
  }

  lemma ExtendIndegree<T>(pairs: seq<(T, T)>, parent: T, child: T, x: T)
    ensures Indegree(pairs + [(parent, child)], {}, x) == Indegree(pairs, {}, x) + if x == child then 1 else 0
  {
    assert (pairs + [(parent, child)])[..|pairs|] == pairs;
  }

  lemma ChildStep<T(!new)>(pairs: seq<(T, T)>, parent: T, child: T)
    ensures var m := SetDefault(ChildLists(pairs), parent, []);
            ChildLists(pairs + [(parent, child)]) == m[parent := m[parent] + [child]]
  {
    ExtendItems(pairs, parent, child);
    Strangers(pairs);
    var after := pairs + [(parent, child)];
    assert after[..|pairs|] == pairs;
    assert forall p :: ChildList(pairs, p) + [] == ChildList(pairs, p);
  }

  lemma ExtendItems<T(!new)>(pairs: seq<(T, T)>, parent: T, child: T)
    ensures Parents(pairs + [(parent, child)]) == Parents(pairs) + {parent}
    ensures Items(pairs + [(parent, child)]) == Items(pairs) + {parent, child}
  {
    var after := pairs + [(parent, child)];
    assert after[|pairs|] == (parent, child);
    assert forall p :: p in after <==> p in pairs || p == (parent, child);
  }

  /** An element that was not mentioned has no parents and no children. */
  lemma Strangers<T(!new)>(pairs: seq<(T, T)>)
    ensures forall x :: x !in Items(pairs) ==> Indegree(pairs, {}, x) == 0
    ensures forall p :: p !in Parents(pairs) ==> ChildList(pairs, p) == []
  {
    forall x | x !in Items(pairs) ensures Indegree(pairs, {}, x) == 0 {
      IndegreeZero(pairs, {}, x);
      assert forall p :: (p, x) in pairs ==> (p, x).1 in Items(pairs);
    }
    forall p | p !in Parents(pairs) ensures ChildList(pairs, p) == [] {
      ChildlessStranger(pairs, p);
    }
  }

  lemma {:induction false} ChildlessStranger<T>(pairs: seq<(T, T)>, p: T)
    requires p !in Parents(pairs)
    ensures ChildList(pairs, p) == []
  {
    if pairs != [] {
      var rest := pairs[..|pairs|-1];
      assert forall q :: q in rest ==> q in pairs;
      ChildlessStranger(rest, p);
    }
  }

  // ----- topsort

  /** `order` lists, each once and after all its parents, exactly the elements not below a cycle. */
  ghost predicate MaximalOrder<T(!new)>(pairs: seq<(T, T)>, order: seq<T>) {
    && Distinct(order) && ParentsFirst(Elements(pairs), order)
    && forall x :: x in order <==> x in Items(pairs) && !BelowCycle(Elements(pairs), x)
  }

  /** State of the main loop of `topsort` with the first `i` elements of `answer` processed. */
  ghost predicate Progress<T(!new)>(pairs: seq<(T, T)>, answer: seq<T>, i: nat,
                                    numParents: map<T, int>, children: map<T, seq<T>>)
  {
    && i <= |answer|
    && Distinct(answer)
    && Tables(numParents, children, pairs, Elements(answer[..i]))
    && numParents.Keys == Items(pairs) - Elements(answer[..i])
    && Elements(answer) <= Items(pairs)
    && (forall x :: x in numParents ==> (numParents[x] == 0 <==> x in answer))
    && ParentsFirst(Elements(pairs), answer)
  }

  /** What the exception carries: exact tables for all elements that are not in the answer. */
  ghost predicate LeftOver<T(!new)>(pairs: seq<(T, T)>, r: Outcome<T>)
    requires r.CycleError?
  {
    && Tables(r.numParents, r.children, pairs, Elements(r.answer))
    && r.numParents.Keys == Items(pairs) - Elements(r.answer)
  }

  /** Kahn's algorithm: bindings/python/topsort.py:61-112. Every mentioned element is either in the
      answer, once and after all its parents, or left over; what is left over, and hence whether
      `CycleError` is raised, is decided by the cycles of the relation alone. */
  method Sort<T(==, !new)>(pairs: seq<(T, T)>) returns (r: Outcome<T>)
    ensures MaximalOrder(pairs, r.answer)
    ensures r.CycleError? <==> HasCycle(Elements(pairs))
    ensures r.CycleError? ==> LeftOver(pairs, r) && r.numParents.Keys != {}
    ensures r.CycleError? ==> SelfSupported(Elements(pairs), r.numParents.Keys)
  {
    hide *;
    var numParents, children := CountParents(pairs);
    var answer := ParentlessKeys(numParents);
    InitialProgress(pairs, answer, numParents, children);
    var i := 0;
    while i < |answer|
      invariant i <= |answer| && Progress(pairs, answer, i, numParents, children)
      decreases numParents.Keys
    {
      answer, numParents, children := Process(pairs, answer, i, numParents, children);
      i := i + 1;
    }
    Exhausted(pairs, answer, numParents, children);
    if numParents != map[] {
      r := CycleError(answer, numParents, children);
      IsLeftOver(pairs, answer, numParents, children);
    } else {
      r := Sorted(answer);
    }
  }

  lemma IsLeftOver<T(!new)>(pairs: seq<(T, T)>, answer: seq<T>, numParents: map<T, int>, children: map<T, seq<T>>)
    requires Tables(numParents, children, pairs, Elements(answer)) && numParents.Keys == Items(pairs) - Elements(answer)
    ensures LeftOver(pairs, CycleError(answer, numParents, children))
  {
  }

  lemma InitialProgress<T(!new)>(pairs: seq<(T, T)>, answer: seq<T>, numParents: map<T, int>, children: map<T, seq<T>>)
    requires Tables(numParents, children, pairs, {}) && numParents.Keys == Items(pairs)
    requires Distinct(answer) && forall x :: x in answer <==> x in numParents && numParents[x] == 0
    ensures Progress(pairs, answer, 0, numParents, children)
  {
    assert Elements(answer[..0]) == {};
    forall p, j | 0 <= j < |answer| ensures (p, answer[j]) !in Elements(pairs) {
      IndegreeZero(pairs, {}, answer[j]);
    }
  }

  /** The children of the element being processed have not been processed themselves. */
  lemma ChildrenPending<T(!new)>(pairs: seq<(T, T)>, answer: seq<T>, i: nat, child: T)
    requires Distinct(answer) && ParentsFirst(Elements(pairs), answer) && i < |answer|
    requires child in ChildList(pairs, answer[i])
    ensures child in Items(pairs) && child !in answer[..i+1]
  {
    var parent := answer[i];
    ChildListMembers(pairs, parent);
    assert (parent, child) in Elements(pairs) && (parent, child).1 in Items(pairs);
  }

  /** `numParents` counts what is left after `parent` knocked down its first `j` children. */
  ghost predicate Knocked<T(!new)>(pairs: seq<(T, T)>, gone: set<T>, parent: T, j: nat, numParents: map<T, int>)
    requires j <= |ChildList(pairs, parent)|
  {
    forall x :: x in numParents ==>
      numParents[x] == Indegree(pairs, gone, x) - multiset(ChildList(pairs, parent)[..j])[x]
  }

  lemma KnockedStep<T(!new)>(pairs: seq<(T, T)>, gone: set<T>, parent: T, j: nat, numParents: map<T, int>)
    requires parent !in gone && j < |ChildList(pairs, parent)| && Knocked(pairs, gone, parent, j, numParents)
    requires ChildList(pairs, parent)[j] in numParents
    ensures var child := ChildList(pairs, parent)[j];
            && numParents[child] > 0
            && Knocked(pairs, gone, parent, j + 1, numParents[child := numParents[child] - 1])
            && (numParents[child] == 1 ==> forall p :: (p, child) in Elements(pairs) ==> p in gone + {parent})
  {
    var kids := ChildList(pairs, parent);
    var child := kids[j];
    KnockDown(pairs, gone, parent, child);
    IndegreeZero(pairs, gone + {parent}, child);
    hide Indegree, ChildList;
    PrefixCounts(kids, j);
    hide Elements;
  }

  /** Counting one element more of a list, and never more than the whole list has. */
  lemma PrefixCounts<T>(s: seq<T>, j: nat)
    requires j < |s|
    ensures multiset(s[..j+1]) == multiset(s[..j])[s[j] := multiset(s[..j])[s[j]] + 1]
    ensures multiset(s[..j+1])[s[j]] <= multiset(s)[s[j]]
  {
    assert s[..j+1] == s[..j] + [s[j]];
    assert s == s[..j+1] + s[j+1..];
  }

  lemma KnockedAll<T(!new)>(pairs: seq<(T, T)>, gone: set<T>, parent: T, numParents: map<T, int>)
    requires parent !in gone && Knocked(pairs, gone, parent, |ChildList(pairs, parent)|, numParents)
    ensures forall x :: x in numParents ==> numParents[x] == Indegree(pairs, gone + {parent}, x)
  {
    var kids := ChildList(pairs, parent);
    assert kids[..|kids|] == kids;
    forall x | x in numParents ensures numParents[x] == Indegree(pairs, gone + {parent}, x) {
      KnockDown(pairs, gone, parent, x);
    }
  }

  lemma AppendReady<T(!new)>(e: set<(T, T)>, order: seq<T>, x: T)
    requires ParentsFirst(e, order) && forall p :: (p, x) in e ==> p in order
    ensures ParentsFirst(e, order + [x])
  {
    var after := order + [x];
    forall p, j | 0 <= j < |after| && (p, after[j]) in e ensures p in after[..j] {
      assert after[..j] == order[..j];
    }
    assert order[..|order|] == order;
  }

  /** One round of the main loop: lines 97-106. */
  method Process<T(==, !new)>(pairs: seq<(T, T)>, answer0: seq<T>, i: nat,
                              numParents0: map<T, int>, children0: map<T, seq<T>>)
    returns (answer: seq<T>, numParents: map<T, int>, children: map<T, seq<T>>)
    requires i < |answer0| && Progress(pairs, answer0, i, numParents0, children0)
    ensures Progress(pairs, answer, i + 1, numParents, children)
    ensures answer0 <= answer && answer0[i] in numParents0 && numParents.Keys == numParents0.Keys - {answer0[i]}
  {
    hide Indegree, ChildList, Items, ParentsFirst;
    answer, children := answer0, children0;
    var parent := answer[i];
    ghost var gone := Elements(answer[..i]);
    assert Elements(answer[..i+1]) == gone + {parent};
    numParents := numParents0 - {parent};
    Strangers(pairs);
    if parent in children {
      answer, numParents := KnockDownChildren(pairs, answer, i, numParents, children[parent]);
      children := children - {parent};
    } else {
      assert ChildList(pairs, parent) == [];
    }
    KnockedAll(pairs, gone, parent, numParents);
    assert answer[..i+1] == answer0[..i+1];
  }

  /** The inner loop, lines 100-103. */
  method KnockDownChildren<T(==, !new)>(ghost pairs: seq<(T, T)>, answer0: seq<T>, ghost i: nat,
                                        numParents0: map<T, int>, kids: seq<T>)
    returns (answer: seq<T>, numParents: map<T, int>)
    requires i < |answer0| && kids == ChildList(pairs, answer0[i])
    requires numParents0.Keys == Items(pairs) - Elements(answer0[..i+1])
    requires Knocked(pairs, Elements(answer0[..i]), answer0[i], 0, numParents0)
    requires Distinct(answer0) && ParentsFirst(Elements(pairs), answer0) && Elements(answer0) <= Items(pairs)
    requires forall x :: x in numParents0 ==> (numParents0[x] == 0 <==> x in answer0)
    ensures answer0 <= answer && numParents.Keys == numParents0.Keys
    ensures Knocked(pairs, Elements(answer0[..i]), answer0[i], |kids|, numParents)
    ensures Distinct(answer) && ParentsFirst(Elements(pairs), answer) && Elements(answer) <= Items(pairs)
    ensures forall x :: x in numParents ==> (numParents[x] == 0 <==> x in answer)
  {
    hide Indegree, ChildList, Items, ParentsFirst, Knocked;
    answer, numParents := answer0, numParents0;
    ghost var gone, parent := Elements(answer0[..i]), answer0[i];
    for j := 0 to |kids|
      invariant numParents.Keys == numParents0.Keys
      invariant Knocked(pairs, gone, parent, j, numParents)
      invariant answer0 <= answer && Distinct(answer) && Elements(answer) <= Items(pairs)
      invariant forall x :: x in numParents ==> (numParents[x] == 0 <==> x in answer)
      invariant ParentsFirst(Elements(pairs), answer)
    {
      var child := kids[j];
      ChildrenPending(pairs, answer0, i, child);
      KnockedStep(pairs, gone, parent, j, numParents);
      numParents := numParents[child := numParents[child] - 1];
      if numParents[child] == 0 {
        forall p | (p, child) in Elements(pairs) ensures p in answer {
          assert p in gone + {parent};
        }
        AppendReady(Elements(pairs), answer, child);
        answer := answer + [child];
      }
    }
  }

  /** When everything in `answer` is processed, the keys left are those below a cycle. */
  lemma Exhausted<T(!new)>(pairs: seq<(T, T)>, answer: seq<T>, numParents: map<T, int>, children: map<T, seq<T>>)
    requires Progress(pairs, answer, |answer|, numParents, children)
    ensures SelfSupported(Elements(pairs), numParents.Keys)
    ensures numParents.Keys == Items(pairs) - Elements(answer)
    ensures MaximalOrder(pairs, answer) && Tables(numParents, children, pairs, Elements(answer))
    ensures HasCycle(Elements(pairs)) <==> numParents != map[]
  {
    assert answer[..|answer|] == answer;
    assert forall x :: x in numParents ==> numParents[x] != 0;
    LeftoverSupported(pairs, Elements(answer), numParents, children);
    MaximalWhenSupported(pairs, answer);
  }

  lemma LeftoverSupported<T(!new)>(pairs: seq<(T, T)>, gone: set<T>, numParents: map<T, int>, children: map<T, seq<T>>)
    requires Tables(numParents, children, pairs, gone) && numParents.Keys >= Items(pairs) - gone
    requires forall x :: x in numParents ==> numParents[x] != 0
    ensures SelfSupported(Elements(pairs), numParents.Keys)
  {
    forall x | x in numParents.Keys ensures HasParentIn(Elements(pairs), numParents.Keys, x) {
      IndegreeZero(pairs, gone, x);
      var p :| (p, x) in pairs && p !in gone;
      assert (p, x).0 in Items(pairs);
    }
  }

  lemma MaximalWhenSupported<T(!new)>(pairs: seq<(T, T)>, answer: seq<T>)
    requires Distinct(answer) && ParentsFirst(Elements(pairs), answer) && Elements(answer) <= Items(pairs)
    requires SelfSupported(Elements(pairs), Items(pairs) - Elements(answer))
    ensures MaximalOrder(pairs, answer)
    ensures HasCycle(Elements(pairs)) <==> Items(pairs) - Elements(answer) != {}
  {
    hide BelowCycle, HasCycle, SelfSupported, ParentsFirst, Distinct;
    var e := Elements(pairs);
    forall p, c | (p, c) in e ensures p in Items(pairs) && c in Items(pairs) {
      assert (p, c).0 in Items(pairs) && (p, c).1 in Items(pairs);
    }
    hide Items;
    LeftoverIsBelowCycle(e, Items(pairs), answer);
    CycleMeansBelow(e, Items(pairs));
    var left := Items(pairs) - Elements(answer);
    assert forall x :: x in left <==> x in Items(pairs) && BelowCycle(e, x);
  }

  ghost predicate HasChild<T(!new)>(pairs: seq<(T, T)>, x: T) {
    exists c :: (x, c) in pairs
  }

  predicate HasListedChild<T>(children: map<T, seq<T>>, x: T) {
    x in children && children[x] != []
  }

  /** The comment in lines 109-110 holds, that is, every element left in the table has a child, if and
      only if no element without children lies below a cycle. */
  lemma LeftoverChildren<T(!new)>(pairs: seq<(T, T)>, r: Outcome<T>)
    requires r.CycleError? && MaximalOrder(pairs, r.answer) && LeftOver(pairs, r)
    ensures (forall x :: x in r.numParents ==> HasListedChild(r.children, x))
      <==> forall x :: x in Items(pairs) && BelowCycle(Elements(pairs), x) ==> HasChild(pairs, x)
  {
    hide BelowCycle, ParentsFirst, Distinct;
    forall x | x in r.numParents ensures HasListedChild(r.children, x) <==> HasChild(pairs, x) {
      ChildListMembers(pairs, x);
      if HasChild(pairs, x) {
        var c :| (x, c) in pairs;
        assert (x, c).0 in Parents(pairs);
      } else if HasListedChild(r.children, x) {
        assert r.children[x][0] in ChildList(pairs, x);
      }
    }
    assert forall x :: x in r.numParents <==> x in Items(pairs) && BelowCycle(Elements(pairs), x);
  }

  /** It fails for the pairs (1, 1) and (1, 2): 2 is left over, below the cycle of 1 with itself, and has
      no child in the table. */
  lemma LeftoverWithoutChild(r: Outcome<int>)
    requires var pairs := [(1, 1), (1, 2)]; r.CycleError? && MaximalOrder(pairs, r.answer) && LeftOver(pairs, r)
    ensures 2 in r.numParents && !HasListedChild(r.children, 2)
    ensures HasCycle(Elements([(1, 1), (1, 2)]))
  {
    var pairs := [(1, 1), (1, 2)];
    TwoBelowOne();
    assert ChildList(pairs, 2) == [];
    assert pairs[1].1 in Items(pairs);
    hide BelowCycle, HasCycle, ParentsFirst, Distinct, Indegree, ChildList;
  }

  lemma TwoBelowOne()
    ensures var e := Elements([(1, 1), (1, 2)]); HasCycle(e) && BelowCycle(e, 2)
  {
    var pairs := [(1, 1), (1, 2)];
    var e := Elements(pairs);
    assert (1, 1) == pairs[0] && (1, 2) == pairs[1];
    assert ElementaryCycle(e, [1]);
    assert WalkBetween(e, [1, 2], 1, 2);
    assert Reaches(e, [1][0], 2);
  }

  /** The keys that map to 0, each once, in an arbitrary order. */
  method ParentlessKeys<T(==, !new)>(numParents: map<T, int>) returns (keys: seq<T>)
    ensures Distinct(keys)
    ensures forall x :: x in keys <==> x in numParents && numParents[x] == 0
  {
    keys := [];
    var todo := numParents.Keys;
    while todo != {}
      invariant todo <= numParents.Keys && Distinct(keys)
      invariant forall x :: x in keys <==> x in numParents.Keys - todo && numParents[x] == 0
    {
      var x :| x in todo;
      todo := todo - {x};
      if numParents[x] == 0 {
        keys := keys + [x];
      }
    }
  }
}
