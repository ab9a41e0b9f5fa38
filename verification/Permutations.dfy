/** `permutations` of bindings/python/rad_util.py. */
module Permutations {
  import opened Common

  function InsertAt<T>(s: seq<T>, i: nat, x: T): seq<T>
    requires i <= |s|
  {
    s[..i] + [x] + s[i..]
  }

  /** `x` inserted at every position of `s`. */
  function Inserts<T>(s: seq<T>, x: T): seq<seq<T>> {
    seq(|s| + 1, i requires 0 <= i <= |s| => InsertAt(s, i, x))
  }

  function InsertsAll<T>(subs: seq<seq<T>>, x: T): seq<seq<T>> {
    if subs == [] then [] else InsertsAll(subs[..|subs|-1], x) + Inserts(subs[|subs|-1], x)
  }

  function Perms<T>(s: seq<T>): seq<seq<T>> {
    if |s| <= 1 then [s] else InsertsAll(Perms(s[1..]), s[0])
  }

  function Factorial(n: nat): nat {
    if n == 0 then 1 else n * Factorial(n - 1)
  }

  /** Lines 310-326. */
  method Run<T>(inputList: seq<T>) returns (outLists: seq<seq<T>>)
    ensures outLists == Perms(inputList)
    decreases |inputList|
  {
    outLists := [];
    if |inputList| > 1 {
      var item := inputList[0];
      var subLists := Run(inputList[1..]);
      SubLengths(inputList[1..]);
      assert InsertsAll([], item) == [] && subLists[..0] == [];
      hide InsertsAll, InsertAt;
      for k := 0 to |subLists|
        invariant outLists == InsertsAll(subLists[..k], item)
      {
        var subList := subLists[k];
        ghost var before := outLists;
        for i := 0 to |inputList|
          invariant outLists == before + Inserts(subList, item)[..i]
        {
          var newList := InsertAt(subList, i, item);
          outLists := outLists + [newList];
        }
        InsertsAllStep(subLists, k, item);
        assert Inserts(subList, item)[..|inputList|] == Inserts(subList, item);
      }
      assert subLists[..|subLists|] == subLists;
    } else {
      outLists := [inputList];
    }
  }

  lemma InsertsAllStep<T>(subs: seq<seq<T>>, k: nat, x: T)
    requires k < |subs|
    ensures InsertsAll(subs[..k+1], x) == InsertsAll(subs[..k], x) + Inserts(subs[k], x)
  {
    assert subs[..k+1][..k] == subs[..k];
  }

  lemma SubLengths<T>(s: seq<T>)
    ensures forall k :: 0 <= k < |Perms(s)| ==> |Perms(s)[k]| == |s|
  {
    forall k | 0 <= k < |Perms(s)| ensures |Perms(s)[k]| == |s| {
      EachIsRearrangement(s, k);
      assert |multiset(Perms(s)[k])| == |multiset(s)|;
    }
  }

  lemma InsertMultiset<T>(s: seq<T>, i: nat, x: T)
    requires i <= |s|
    ensures multiset(InsertAt(s, i, x)) == multiset(s) + multiset{x}
  {
    assert s == s[..i] + s[i..];
  }

  /** Where an element of the long list comes from. */
  lemma {:induction false} Origin<T>(subs: seq<seq<T>>, x: T, k: nat) returns (j: nat, i: nat)
    requires k < |InsertsAll(subs, x)|
    ensures j < |subs| && i <= |subs[j]| && InsertsAll(subs, x)[k] == InsertAt(subs[j], i, x)
    decreases |subs|
  {
    var n := |subs| - 1;
    var before := InsertsAll(subs[..n], x);
    if k < |before| {
      j, i := Origin(subs[..n], x, k);
    } else {
      j, i := n, k - |before|;
    }
  }

  lemma {:induction false} Reached<T>(subs: seq<seq<T>>, x: T, j: nat, i: nat)
    requires j < |subs| && i <= |subs[j]|
    ensures InsertAt(subs[j], i, x) in InsertsAll(subs, x)
    decreases |subs|
  {
    var n := |subs| - 1;
    if j < n {
      Reached(subs[..n], x, j, i);
    } else {
      assert Inserts(subs[n], x)[i] == InsertAt(subs[n], i, x);
    }
  }

  /** Each result is a rearrangement of the input. */
  lemma {:induction false} EachIsRearrangement<T>(s: seq<T>, k: nat)
    requires k < |Perms(s)|
    ensures multiset(Perms(s)[k]) == multiset(s)
    decreases |s|
  {
    if |s| > 1 {
      var j, i := Origin(Perms(s[1..]), s[0], k);
      EachIsRearrangement(s[1..], j);
      InsertMultiset(Perms(s[1..])[j], i, s[0]);
      assert s == [s[0]] + s[1..];
    }
  }

  lemma Cancel<T(!new)>(a: multiset<T>, b: multiset<T>, c: multiset<T>)
    requires a + c == b + c
    ensures a == b
  {
    forall x ensures a[x] == b[x] {
      assert (a + c)[x] == (b + c)[x];
    }
  }

  /** Every rearrangement of the input is a result, repeated elements or not. */
  lemma {:induction false} EveryRearrangement<T(!new)>(s: seq<T>, p: seq<T>)
    requires multiset(p) == multiset(s)
    ensures p in Perms(s)
    decreases |s|
  {
    assert |p| == |s| by { assert |multiset(p)| == |multiset(s)|; }
    if |s| == 0 {
      assert p == s;
    } else if |s| == 1 {
      assert s[0] in multiset(p);
      assert p == s;
    } else {
      assert s[0] in multiset(p);
      var i :| 0 <= i < |p| && p[i] == s[0];
      var rest := p[..i] + p[i+1..];
      assert p == p[..i] + [p[i]] + p[i+1..];
      assert s == [s[0]] + s[1..];
      assert multiset(p) == multiset(rest) + multiset{s[0]};
      assert multiset(s) == multiset(s[1..]) + multiset{s[0]};
      Cancel(multiset(rest), multiset(s[1..]), multiset{s[0]});
      EveryRearrangement(s[1..], rest);
      var j :| 0 <= j < |Perms(s[1..])| && Perms(s[1..])[j] == rest;
      Reached(Perms(s[1..]), s[0], j, i);
      assert InsertAt(rest, i, s[0]) == p;
    }
  }

  lemma {:induction false} InsertsAllLength<T>(subs: seq<seq<T>>, x: T, n: nat)
    requires forall j :: 0 <= j < |subs| ==> |subs[j]| == n
    ensures |InsertsAll(subs, x)| == |subs| * (n + 1)
    decreases |subs|
  {
    if subs != [] {
      InsertsAllLength(subs[..|subs|-1], x, n);
      assert (|subs| - 1) * (n + 1) + (n + 1) == |subs| * (n + 1);
    }
  }

  /** n! results. */
  lemma {:induction false} PermsCount<T>(s: seq<T>)
    ensures |Perms(s)| == Factorial(|s|)
    decreases |s|
  {
    if |s| > 1 {
      PermsCount(s[1..]);
      SubLengths(s[1..]);
      InsertsAllLength(Perms(s[1..]), s[0], |s| - 1);
    }
  }

  /** Without `x` in them, the lists and positions can be read off the result of an insertion. */
  lemma InsertUnique<T>(s: seq<T>, i: nat, t: seq<T>, j: nat, x: T)
    requires i <= |s| && j <= |t| && x !in s && x !in t
    requires InsertAt(s, i, x) == InsertAt(t, j, x)
    ensures i == j && s == t
  {
    var r := InsertAt(s, i, x);
    assert r[i] == x && r[j] == x;
    assert forall a :: 0 <= a < i ==> r[a] != x by {
      assert forall a :: 0 <= a < i ==> r[a] == s[a];
    }
    assert forall a :: 0 <= a < j ==> r[a] != x by {
      assert forall a :: 0 <= a < j ==> r[a] == t[a];
    }
    assert s == r[..i] + r[i+1..];
    assert t == r[..i] + r[i+1..];
  }

  lemma {:induction false} InsertsAllDistinct<T>(subs: seq<seq<T>>, x: T)
    requires Distinct(subs) && forall j :: 0 <= j < |subs| ==> x !in subs[j]
    ensures Distinct(InsertsAll(subs, x))
    decreases |subs|
  {
    if subs != [] {
      var n := |subs| - 1;
      var before, last := InsertsAll(subs[..n], x), Inserts(subs[n], x);
      InsertsAllDistinct(subs[..n], x);
      forall k, m | 0 <= k < m < |before + last| ensures (before + last)[k] != (before + last)[m] {
        if m >= |before| && (before + last)[k] == (before + last)[m] {
          var j, i := n, k - |before|;
          if k < |before| {
            j, i := Origin(subs[..n], x, k);
          }
          InsertUnique(subs[j], i, subs[n], m - |before|, x);
          assert false;
        }
      }
    }
  }

  /** From distinct elements the results are pairwise different. */
  lemma {:induction false} PermsDistinct<T>(s: seq<T>)
    requires Distinct(s)
    ensures Distinct(Perms(s))
    decreases |s|
  {
    if |s| > 1 {
      var subs := Perms(s[1..]);
      PermsDistinct(s[1..]);
      forall j | 0 <= j < |subs| ensures s[0] !in subs[j] {
        EachIsRearrangement(s[1..], j);
        assert s[0] !in multiset(subs[j]) by {
          assert s[0] !in s[1..];
        }
      }
      InsertsAllDistinct(subs, s[0]);
    }
  }
}
