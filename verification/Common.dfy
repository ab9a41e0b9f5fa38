/** What several modules share: optional values, lists without repetitions, addresses, sorting with a given
    order, and quotients. */
module Common {

  datatype Option<T> = None | Some(value: T)

  predicate Distinct<T(==)>(s: seq<T>) {
    forall i, j :: 0 <= i < j < |s| ==> s[i] != s[j]
  }

  function Elements<T>(s: seq<T>): set<T> {
    set x | x in s
  }

  function Min(a: int, b: int): int {
    if a < b then a else b
  }

  function Max(a: int, b: int): int {
    if a < b then b else a
  }

  // ----- addresses of the topology scripts; the first octet is always 10 and is left out

  datatype Address = Address(second: nat, third: nat, fourth: nat)

  function NextAddress(a: Address): Address {
    a.(fourth := a.fourth + 1)
  }

  /** A proper host address of a /24 subnet. */
  predicate ValidAddress(a: Address) {
    a.second <= 255 && a.third <= 255 && 1 <= a.fourth <= 254
  }

  /** Ipv4AddressHelper::Assign: consecutive addresses from the base, in device order. */
  method Assign<Device>(base: Address, devices: seq<Device>) returns (addressed: seq<(Device, Address)>)
    ensures |addressed| == |devices|
    ensures forall t :: 0 <= t < |devices| ==> addressed[t] == (devices[t], base.(fourth := base.fourth + t))
  {
    var address := base;
    addressed := [];
    for t := 0 to |devices|
      invariant address == base.(fourth := base.fourth + t) && |addressed| == t
      invariant forall u :: 0 <= u < t ==> addressed[u] == (devices[u], base.(fourth := base.fourth + u))
    {
      addressed := addressed + [(devices[t], address)];
      address := NextAddress(address);
    }
  }

  // ----- sorting; stands for `std::sort`

  function Insert<T>(s: seq<T>, x: T, before: (T, T) -> bool): seq<T> {
    if s == [] || before(x, s[0]) then [x] + s else [s[0]] + Insert(s[1..], x, before)
  }

  function Sort<T>(s: seq<T>, before: (T, T) -> bool): seq<T> {
    if s == [] then [] else Insert(Sort(s[1..], before), s[0], before)
  }

  /** Any two different elements are comparable, and comparing is transitive. */
  ghost predicate TotalOrder<T(!new)>(before: (T, T) -> bool) {
    && (forall x, y :: x == y || before(x, y) || before(y, x))
    && (forall x, y, z :: before(x, y) && before(y, z) ==> before(x, z))
  }

  predicate InOrder<T(==)>(s: seq<T>, before: (T, T) -> bool) {
    forall i, j :: 0 <= i < j < |s| ==> s[i] == s[j] || before(s[i], s[j])
  }

  lemma {:induction false} InsertKeeps<T>(s: seq<T>, x: T, before: (T, T) -> bool)
    ensures multiset(Insert(s, x, before)) == multiset(s) + multiset{x}
    decreases |s|
  {
    if s != [] {
      assert s == [s[0]] + s[1..];
      if !before(x, s[0]) {
        InsertKeeps(s[1..], x, before);
      }
    }
  }

  lemma Prepend<T(!new)>(x: T, s: seq<T>, before: (T, T) -> bool)
    requires TotalOrder(before) && InOrder(s, before) && (s != [] ==> x == s[0] || before(x, s[0]))
    ensures InOrder([x] + s, before)
  {
    forall i, j | 0 <= i < j < |[x] + s| ensures ([x] + s)[i] == ([x] + s)[j] || before(([x] + s)[i], ([x] + s)[j]) {
      assert ([x] + s)[j] == s[j-1];
      if i > 0 {
        assert ([x] + s)[i] == s[i-1];
      }
    }
  }

  lemma {:induction false} InsertSorts<T(!new)>(s: seq<T>, x: T, before: (T, T) -> bool)
    requires TotalOrder(before) && InOrder(s, before)
    ensures InOrder(Insert(s, x, before), before)
    decreases |s|
  {
    if s == [] || before(x, s[0]) {
      Prepend(x, s, before);
    } else {
      InsertSorts(s[1..], x, before);
      Prepend(s[0], Insert(s[1..], x, before), before);
    }
  }

  lemma {:induction false} SortSorts<T(!new)>(s: seq<T>, before: (T, T) -> bool)
    requires TotalOrder(before)
    ensures InOrder(Sort(s, before), before) && multiset(Sort(s, before)) == multiset(s)
    decreases |s|
  {
    if s != [] {
      SortSorts(s[1..], before);
      InsertSorts(Sort(s[1..], before), s[0], before);
      InsertKeeps(Sort(s[1..], before), s[0], before);
      assert s == [s[0]] + s[1..];
    }
  }

  // ----- quotients and remainders

  lemma MulOrder(a: int, b: int, n: int)
    requires n >= 0
    ensures a <= b ==> a * n <= b * n
  {
  }

  lemma DivMod(x: int, n: int, q: int, r: int)
    requires n > 0 && x == q * n + r && 0 <= r < n
    ensures x / n == q && x % n == r
  {
    var d := x / n - q;
    assert d * n == r - x % n;
    MulOrder(1, d, n);
    MulOrder(1, -d, n);
  }
}
