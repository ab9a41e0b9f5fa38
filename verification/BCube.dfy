/** The three host-connection loops of scratch/BCube.cc for any number `n` of ports, the addresses they
    assign and the graph they build. A container of devices is the list of hosts attached to a switch, in
    attachment order. */
module BCube {
  import opened Common

  /** n to the power of the level, for the levels the file uses. */
  function Power(n: nat, l: nat): nat {
    if l == 0 then 1 else if l == 1 then n else if l == 2 then n * n else n * n * n
  }

  /** The `t`-th host attached to switch `i` of level `l`, in closed form. */
  function HostAt(n: nat, l: nat, i: nat, t: nat): nat
    requires n >= 1 && l <= 2
  {
    Positive(n, l);
    Place(i, t, Power(n, l), Power(n, l + 1))
  }

  /** Row `i / step` of width `span`, column `i % step`, and `t` steps further. */
  function Place(i: nat, t: nat, step: nat, span: nat): nat
    requires step >= 1
  {
    Product(i / step, span) + i % step + Product(t, step)
  }

  function Product(a: nat, b: nat): nat {
    a * b
  }

  function Attached(n: nat, l: nat, i: nat): seq<nat>
    requires n >= 1 && l <= 2
  {
    seq(n, t requires 0 <= t < n => HostAt(n, l, i, t))
  }

  /** The device of the switch itself or that of a host. */
  datatype Device = OfSwitch | OfHost(h: nat)

  /** The devices on switch `i` of level `l` that get addresses, with their addresses in 10.l.i.0/24. */
  function Subnet(n: nat, l: nat, i: nat): seq<(Device, Address)>
    requires n >= 1 && l <= 2
  {
    seq(n + 1, t requires 0 <= t <= n =>
      (if t == 0 then OfSwitch else OfHost(HostAt(n, l, i, t - 1)), Address(l, i, t + 1)))
  }

  lemma Positive(n: nat, l: nat)
    requires n >= 1
    ensures Power(n, l) >= 1
  {
    assert n * n >= 1;
    assert (n * n) * n >= 1;
  }

  // ----- quotients and remainders

  lemma NextQuotient(i: int, n: int)
    requires n > 0 && i >= 0
    ensures (i + 1) % n == 0 ==> (i + 1) / n == i / n + 1 && i % n == n - 1
    ensures (i + 1) % n != 0 ==> (i + 1) / n == i / n && (i + 1) % n == i % n + 1
  {
    if i % n == n - 1 {
      DivMod(i + 1, n, i / n + 1, 0);
    } else {
      DivMod(i + 1, n, i / n, i % n + 1);
    }
  }

  // ----- the loops

  /** Lines 259-277. */
  method ConnectLevel0(n: nat) returns (devices: seq<seq<nat>>, addressed: seq<seq<(Device, Address)>>)
    requires n >= 1
    ensures |devices| == n * n && forall i :: 0 <= i < n * n ==> devices[i] == Attached(n, 0, i)
    ensures |addressed| == n * n && forall i :: 0 <= i < n * n ==> addressed[i] == Subnet(n, 0, i)
  {
    var numSw := n * n;
    devices, addressed := [], [];
    var j, temp, i := 0, 0, 0;
    while i < numSw
      invariant 0 <= i <= numSw && |devices| == i && j == i * n
      invariant forall k :: 0 <= k < i ==> devices[k] == Attached(n, 0, k)
      invariant |addressed| == i && forall k :: 0 <= k < i ==> addressed[k] == Subnet(n, 0, k)
    {
      temp := j;
      var hosts: seq<nat> := [];
      while j < temp + n
        invariant temp <= j <= temp + n && |hosts| == j - temp
        invariant forall t :: 0 <= t < |hosts| ==> hosts[t] == temp + t
      {
        hosts := hosts + [j];
        j := j + 1;
      }
      assert forall t :: 0 <= t < n ==> HostAt(n, 0, i, t) == temp + t;
      devices := devices + [hosts];
      var ips := AssignSubnet(n, 0, i, hosts);
      addressed := addressed + [ips];
      assert (i + 1) * n == i * n + n;
      i := i + 1;
    }
  }

  /** Lines 286-321, where `temp` is patched from one switch to the next. */
  method ConnectLevel1(n: nat) returns (devices: seq<seq<nat>>, addressed: seq<seq<(Device, Address)>>)
    requires n >= 1
    ensures |devices| == n * n && forall i :: 0 <= i < n * n ==> devices[i] == Attached(n, 1, i)
    ensures |addressed| == n * n && forall i :: 0 <= i < n * n ==> addressed[i] == Subnet(n, 1, i)
  {
    var numSw := n * n;
    devices, addressed := [], [];
    var j, temp, i := 0, 0, 0;
    while i < numSw
      invariant 0 <= i <= numSw && |devices| == i
      invariant i > 0 ==> temp == HostAt(n, 1, i - 1, 0)
      invariant forall k :: 0 <= k < i ==> devices[k] == Attached(n, 1, k)
      invariant |addressed| == i && forall k :: 0 <= k < i ==> addressed[k] == Subnet(n, 1, k)
    {
      if i == 0 {
        j := 0;
        temp := j;
      }
      if i % n != 0 {
        j := temp + 1;
        temp := j;
      }
      if i % n == 0 && i != 0 {
        j := temp - n + 1;
        j := j + n * n;
        temp := j;
      }
      if i > 0 {
        NextBase1(n, i - 1);
      }
      var hosts := AttachEvery(n, 1, i, temp, n, n * n);
      devices := devices + [hosts];
      var ips := AssignSubnet(n, 1, i, hosts);
      addressed := addressed + [ips];
      i := i + 1;
    }
  }

  /** Lines 330-368. */
  method ConnectLevel2(n: nat) returns (devices: seq<seq<nat>>, addressed: seq<seq<(Device, Address)>>)
    requires n >= 1
    ensures |devices| == n * n && forall i :: 0 <= i < n * n ==> devices[i] == Attached(n, 2, i)
    ensures |addressed| == n * n && forall i :: 0 <= i < n * n ==> addressed[i] == Subnet(n, 2, i)
  {
    var numSw := n * n;
    devices, addressed := [], [];
    var j, temp, temp2, temp3, i := 0, 0, n * n, n * n * n, 0;
    Positive(n, 2);
    while i < numSw
      invariant 0 <= i <= numSw && |devices| == i
      invariant i > 0 ==> temp == HostAt(n, 2, i - 1, 0)
      invariant forall k :: 0 <= k < i ==> devices[k] == Attached(n, 2, k)
      invariant |addressed| == i && forall k :: 0 <= k < i ==> addressed[k] == Subnet(n, 2, k)
    {
      if i == 0 {
        j := 0;
        temp := j;
      }
      if i % temp2 != 0 {
        j := temp + 1;
        temp := j;
      }
      if i % temp2 == 0 && i != 0 {
        j := temp - temp2 + 1;
        j := j + temp3;
        temp := j;
      }
      if i > 0 {
        NextBase2(n, i - 1);
      }
      var hosts := AttachEvery(n, 2, i, temp, temp2, temp3);
      devices := devices + [hosts];
      var ips := AssignSubnet(n, 2, i, hosts);
      addressed := addressed + [ips];
      i := i + 1;
    }
  }

  /** Lines 273-276, 317-320 and 364-367: the devices of the switch and of its hosts get addresses in turn. */
  method AssignSubnet(n: nat, l: nat, i: nat, hosts: seq<nat>) returns (addressed: seq<(Device, Address)>)
    requires n >= 1 && l <= 2 && hosts == Attached(n, l, i)
    ensures addressed == Subnet(n, l, i)
  {
    hide HostAt;
    var devices := [OfSwitch] + seq(|hosts|, t requires 0 <= t < |hosts| => OfHost(hosts[t]));
    addressed := Assign(Address(l, i, 1), devices);
  }

  lemma NextBase1(n: nat, i: nat)
    requires n >= 1
    ensures HostAt(n, 1, i + 1, 0) == HostAt(n, 1, i, 0) + if (i + 1) % n != 0 then 1 else n * n - n + 1
  {
    NextQuotient(i, n);
    assert (i / n + 1) * (n * n) == (i / n) * (n * n) + n * n;
  }

  lemma NextBase2(n: nat, i: nat)
    requires n >= 1
    ensures n * n >= 1
    ensures HostAt(n, 2, i + 1, 0) == HostAt(n, 2, i, 0) + if (i + 1) % (n * n) != 0 then 1 else n * n * n - n * n + 1
  {
    Positive(n, 2);
    NextPlace(i, n * n, n * n * n);
  }

  /** The next place in its row, or the first of the next row. */
  lemma NextPlace(i: nat, step: nat, span: nat)
    requires step >= 1
    ensures Place(i + 1, 0, step, span) == Place(i, 0, step, span) + if (i + 1) % step != 0 then 1 else span - step + 1
  {
    NextQuotient(i, step);
    assert (i / step + 1) * span == (i / step) * span + span;
  }

  /** The inner loop of levels 1 and 2, lines 309-313 and 355-359: from `temp` in steps of n^l. */
  method AttachEvery(n: nat, ghost l: nat, ghost i: nat, temp: nat, step: nat, span: nat) returns (hosts: seq<nat>)
    requires n >= 1 && 1 <= l <= 2 && step == Power(n, l) && span == Power(n, l + 1) && temp == HostAt(n, l, i, 0)
    ensures hosts == Attached(n, l, i)
  {
    StepsOf(n, l);
    forall t: nat ensures HostAt(n, l, i, t) == temp + Product(t, step) {
      HostAfter(n, l, i, t);
    }
    hide Power, HostAt, Product;
    StepsBelow(0, n, step);
    hosts := [];
    var j := temp;
    while j < temp + span
      invariant |hosts| <= n && j == temp + Product(|hosts|, step)
      invariant forall t :: 0 <= t < |hosts| ==> hosts[t] == temp + Product(t, step)
      decreases n - |hosts|
    {
      StepsBelow(|hosts|, n, step);
      hosts := hosts + [j];
      j := j + step;
    }
    StepsBelow(|hosts|, n, step);
  }

  lemma StepsOf(n: nat, l: nat)
    requires n >= 1 && 1 <= l <= 2
    ensures Power(n, l) >= 1 && Power(n, l + 1) == Product(n, Power(n, l))
  {
    Positive(n, l);
    assert l == 2 ==> n * n * n == n * (n * n);
  }

  lemma HostAfter(n: nat, l: nat, i: nat, t: nat)
    requires n >= 1 && l <= 2
    ensures HostAt(n, l, i, t) == HostAt(n, l, i, 0) + Product(t, Power(n, l))
  {
    Positive(n, l);
    StepsBelow(0, 0, Power(n, l));
    hide Power, Product;
  }

  /** Counting in steps stays below `n` steps as long as fewer than `n` have been made. */
  lemma StepsBelow(m: nat, n: nat, step: nat)
    requires step >= 1
    ensures Product(m, step) < Product(n, step) <==> m < n
    ensures Product(m + 1, step) == Product(m, step) + step && Product(0, step) == 0
  {
    MulOrder(m + 1, n, step);
    MulOrder(n, m, step);
    Distribute(m, 1, step);
  }

  // ----- the digits of a host number and the switches it hangs on

  function Digit(n: nat, l: nat, h: nat): nat
    requires n >= 1
  {
    Positive(n, 2);
    if l == 0 then h % n else if l == 1 then (h / n) % n else h / (n * n)
  }

  function Compose(n: nat, a: nat, b: nat, c: nat): nat {
    a + Product(b + Product(c, n), n)
  }

  lemma Distribute(x: int, y: int, n: int)
    ensures (x + y) * n == x * n + y * n
  {
  }

  lemma Associate(c: int, n: int)
    ensures (c * n) * n == c * (n * n)
  {
  }

  /** The weight of the third digit, and how far the first two reach. */
  lemma Expand(n: nat, a: nat, b: nat, c: nat)
    requires a < n && b < n
    ensures Compose(n, a, b, c) == Product(c, n * n) + (Product(b, n) + a)
    ensures Product(b, n) + a < n * n
    ensures c < n ==> Product(c, n * n) + (Product(b, n) + a) < n * n * n
  {
    Distribute(b, Product(c, n), n);
    Associate(c, n);
    MulOrder(b + 1, n, n);
    Distribute(b, 1, n);
    MulOrder(c + 1, n, n * n);
    Distribute(c, 1, n * n);
    Associate(n, n);
  }

  lemma SplitTwice(n: nat, h: nat) returns (a: nat, b: nat, c: nat)
    requires n >= 1
    ensures a == h % n < n && b == (h / n) % n < n && h == Compose(n, a, b, c)
  {
    var q := h / n;
    a, b, c := h % n, q % n, q / n;
    assert h == q * n + a && q == c * n + b;
  }

  lemma ThirdDigit(n: nat, h: nat, a: nat, b: nat, c: nat)
    requires n >= 1 && a < n && b < n && h == Compose(n, a, b, c) && h < n * n * n
    ensures n * n > 0 && c == h / (n * n) && c < n
  {
    Positive(n, 2);
    Expand(n, a, b, c);
    var low, square := Product(b, n) + a, n * n;
    Associate(n, n);
    hide Compose;
    AsQuotient(h, square, c, low, n);
  }

  lemma AsQuotient(h: nat, square: nat, c: nat, low: nat, n: nat)
    requires low < square && h == c * square + low && h < n * square
    ensures c == h / square && c < n
  {
    DivMod(h, square, c, low);
    MulOrder(n, c, square);
  }

  lemma DigitsOf(n: nat, h: nat)
    requires n >= 1 && h < n * n * n
    ensures forall l :: 0 <= l <= 2 ==> Digit(n, l, h) < n
    ensures h == Compose(n, Digit(n, 0, h), Digit(n, 1, h), Digit(n, 2, h))
  {
    Positive(n, 2);
    var a, b, c := SplitTwice(n, h);
    ThirdDigit(n, h, a, b, c);
  }

  lemma ComposeDigits(n: nat, a: nat, b: nat, c: nat)
    requires n >= 1 && a < n && b < n && c < n
    ensures Compose(n, a, b, c) < n * n * n
    ensures Digit(n, 0, Compose(n, a, b, c)) == a && Digit(n, 1, Compose(n, a, b, c)) == b
    ensures Digit(n, 2, Compose(n, a, b, c)) == c
  {
    Positive(n, 2);
    var h, q := Compose(n, a, b, c), b + Product(c, n);
    DivMod(h, n, q, a);
    DivMod(q, n, c, b);
    Expand(n, a, b, c);
    hide Compose, Product;
    DivMod(h, n * n, c, Product(b, n) + a);
  }

  /** The switch of level `l` a host hangs on: its number with digit `l` taken out. */
  function SwitchOf(n: nat, l: nat, h: nat): nat
    requires n >= 1 && l <= 2
  {
    var a, b, c := Digit(n, 0, h), Digit(n, 1, h), Digit(n, 2, h);
    if l == 0 then b + Product(c, n) else if l == 1 then a + Product(c, n) else a + Product(b, n)
  }

  lemma PairUnique(n: nat, x: nat, y: nat, x': nat, y': nat)
    requires n >= 1 && x < n && x' < n
    ensures x + Product(y, n) == x' + Product(y', n) <==> x == x' && y == y'
  {
    DivMod(x + y * n, n, y, x);
    DivMod(x' + y' * n, n, y', x');
  }

  /** The host with digit `l` equal to `t` and the other two equal to x and y. */
  function Spelled(n: nat, l: nat, x: nat, y: nat, t: nat): nat {
    if l == 0 then Compose(n, t, x, y) else if l == 1 then Compose(n, x, t, y) else Compose(n, x, y, t)
  }

  /** The closed form in digits: switch `i` of level `l` gets the hosts whose other two digits spell `i`. */
  lemma HostAtDigits(n: nat, l: nat, i: nat, t: nat) returns (x: nat, y: nat)
    requires n >= 1 && l <= 2 && i < n * n && t < n
    ensures x < n && y < n && i == x + Product(y, n)
    ensures HostAt(n, l, i, t) == Spelled(n, l, x, y, t)
  {
    Positive(n, 2);
    x, y := i % n, i / n;
    assert i == y * n + x;
    MulOrder(n, y, n);
    if l == 0 {
    } else if l == 1 {
      Distribute(t, Product(y, n), n);
      Associate(y, n);
    } else {
      DivMod(i, n * n, 0, i);
      Distribute(y, Product(t, n), n);
      Associate(t, n);
    }
  }

  /** Every host is attached exactly once per level: to `SwitchOf`, at the position of its digit. */
  lemma AttachedExactlyOnce(n: nat, l: nat, i: nat, t: nat, h: nat)
    requires n >= 1 && l <= 2 && i < n * n && t < n && h < n * n * n
    ensures HostAt(n, l, i, t) < n * n * n
    ensures HostAt(n, l, i, t) == h <==> i == SwitchOf(n, l, h) && t == Digit(n, l, h)
  {
    hide HostAt, Spelled, SwitchOf, Digit, Product;
    var x, y := HostAtDigits(n, l, i, t);
    SpellsUniquely(n, l, x, y, t, h);
  }

  lemma SpellsUniquely(n: nat, l: nat, x: nat, y: nat, t: nat, h: nat)
    requires n >= 1 && l <= 2 && x < n && y < n && t < n && h < n * n * n
    ensures Spelled(n, l, x, y, t) < n * n * n
    ensures Spelled(n, l, x, y, t) == h <==> x + Product(y, n) == SwitchOf(n, l, h) && t == Digit(n, l, h)
  {
    var a, b, c := if l == 0 then t else x, if l == 0 then x else if l == 1 then t else y, if l == 2 then t else y;
    ComposeDigits(n, a, b, c);
    DigitsOf(n, h);
    SwitchSpells(n, l, h, x, y);
    hide Digit, SwitchOf, Compose, Product;
  }

  /** `x + y n` is the host's switch exactly when x and y are its other two digits. */
  lemma SwitchSpells(n: nat, l: nat, h: nat, x: nat, y: nat)
    requires n >= 1 && l <= 2 && x < n && forall m :: 0 <= m <= 2 ==> Digit(n, m, h) < n
    ensures x + Product(y, n) == SwitchOf(n, l, h)
      <==> x == Digit(n, if l == 0 then 1 else 0, h) && y == Digit(n, if l == 2 then 1 else 2, h)
  {
    var low, high := if l == 0 then 1 else 0, if l == 2 then 1 else 2;
    assert SwitchOf(n, l, h) == Digit(n, low, h) + Product(Digit(n, high, h), n);
    PairUnique(n, x, y, Digit(n, low, h), Digit(n, high, h));
  }

  /** There is such a switch and such a position. */
  lemma SwitchInRange(n: nat, l: nat, h: nat)
    requires n >= 1 && l <= 2 && h < n * n * n
    ensures SwitchOf(n, l, h) < n * n && Digit(n, l, h) < n
  {
    DigitsOf(n, h);
    var low, high := if l == 0 then 1 else 0, if l == 2 then 1 else 2;
    assert SwitchOf(n, l, h) == Digit(n, low, h) + Product(Digit(n, high, h), n);
    hide Digit, SwitchOf;
    MulOrder(Digit(n, high, h) + 1, n, n);
    Distribute(Digit(n, high, h), 1, n);
  }

  /** So a switch's list holds a host exactly when it is that host's switch. */
  lemma HangsOn(n: nat, l: nat, i: nat, h: nat)
    requires n >= 1 && l <= 2 && i < n * n && h < n * n * n
    ensures h in Attached(n, l, i) <==> i == SwitchOf(n, l, h)
  {
    DigitsOf(n, h);
    AttachedExactlyOnce(n, l, i, Digit(n, l, h), h);
    assert Attached(n, l, i)[Digit(n, l, h)] == HostAt(n, l, i, Digit(n, l, h));
    if h in Attached(n, l, i) {
      var t :| 0 <= t < n && Attached(n, l, i)[t] == h;
      AttachedExactlyOnce(n, l, i, t, h);
    }
  }

  // ----- the graph: two hosts are neighbours when they share a switch

  predicate IsHost(n: nat, h: nat) {
    n >= 1 && h < n * n * n
  }

  /** Two hosts share their level `l` switch exactly when they differ in no other digit. */
  lemma SharedSwitch(n: nat, l: nat, h: nat, g: nat)
    requires IsHost(n, h) && IsHost(n, g) && l <= 2
    ensures SwitchOf(n, l, h) == SwitchOf(n, l, g)
      <==> forall m :: 0 <= m <= 2 && m != l ==> Digit(n, m, h) == Digit(n, m, g)
  {
    DigitsOf(n, h);
    DigitsOf(n, g);
    var low, high := if l == 0 then 1 else 0, if l == 2 then 1 else 2;
    PairUnique(n, Digit(n, low, h), Digit(n, high, h), Digit(n, low, g), Digit(n, high, g));
  }

  /** Distinct hosts share at most one switch over all three levels. */
  lemma AtMostOneSharedSwitch(n: nat, h: nat, g: nat, l: nat, m: nat)
    requires IsHost(n, h) && IsHost(n, g) && l < m <= 2
    requires SwitchOf(n, l, h) == SwitchOf(n, l, g) && SwitchOf(n, m, h) == SwitchOf(n, m, g)
    ensures h == g
  {
    SharedSwitch(n, l, h, g);
    SharedSwitch(n, m, h, g);
    DigitsOf(n, h);
    DigitsOf(n, g);
    var k := if l == 0 && m == 1 then 2 else if l == 0 then 1 else 0;
    assert Digit(n, l, h) == Digit(n, l, g) && Digit(n, m, h) == Digit(n, m, g) && Digit(n, k, h) == Digit(n, k, g);
  }

  function Differ(n: nat, l: nat, h: nat, g: nat): nat
    requires n >= 1
  {
    if Digit(n, l, h) == Digit(n, l, g) then 0 else 1
  }

  /** In how many digits two hosts differ. */
  function Hamming(n: nat, h: nat, g: nat): nat
    requires n >= 1
  {
    Differ(n, 0, h, g) + Differ(n, 1, h, g) + Differ(n, 2, h, g)
  }

  ghost predicate Neighbours(n: nat, h: nat, g: nat)
    requires n >= 1
  {
    h != g && exists l :: 0 <= l <= 2 && SwitchOf(n, l, h) == SwitchOf(n, l, g)
  }

  /** A path from host to host, each hop through one switch. */
  ghost predicate HostPath(n: nat, p: seq<nat>) {
    && n >= 1 && p != [] && (forall i :: 0 <= i < |p| ==> IsHost(n, p[i]))
    && (forall i :: 0 < i < |p| ==> Neighbours(n, p[i-1], p[i]))
  }

  lemma NeighboursDifferInOne(n: nat, h: nat, g: nat)
    requires IsHost(n, h) && IsHost(n, g)
    ensures Neighbours(n, h, g) <==> Hamming(n, h, g) == 1
    ensures Hamming(n, h, g) == 0 <==> h == g
  {
    DigitsOf(n, h);
    DigitsOf(n, g);
    SharedSwitch(n, 0, h, g);
    SharedSwitch(n, 1, h, g);
    SharedSwitch(n, 2, h, g);
    if Hamming(n, h, g) == 1 {
      var l := if Differ(n, 0, h, g) == 1 then 0 else if Differ(n, 1, h, g) == 1 then 1 else 2;
      assert SwitchOf(n, l, h) == SwitchOf(n, l, g);
    }
  }

  /** No path is shorter than the number of differing digits. */
  lemma {:induction false} PathLowerBound(n: nat, p: seq<nat>)
    requires HostPath(n, p)
    ensures Hamming(n, p[0], p[|p|-1]) <= |p| - 1
    decreases |p|
  {
    var last := |p| - 1;
    if last > 0 {
      PathLowerBound(n, p[..last]);
      NeighboursDifferInOne(n, p[last-1], p[last]);
    }
  }

  function WithDigit(n: nat, l: nat, h: nat, d: nat): nat
    requires n >= 1
  {
    Compose(n, if l == 0 then d else Digit(n, 0, h), if l == 1 then d else Digit(n, 1, h),
      if l == 2 then d else Digit(n, 2, h))
  }

  /** Correcting one digit after the other gives a path of exactly that length, so at most three switches. */
  lemma {:induction false} Route(n: nat, h: nat, g: nat) returns (p: seq<nat>)
    requires IsHost(n, h) && IsHost(n, g)
    ensures HostPath(n, p) && p[0] == h && p[|p|-1] == g && |p| - 1 == Hamming(n, h, g) <= 3
    decreases Hamming(n, h, g)
  {
    NeighboursDifferInOne(n, h, g);
    if h == g {
      return [h];
    }
    var l := if Differ(n, 0, h, g) == 1 then 0 else if Differ(n, 1, h, g) == 1 then 1 else 2;
    var x := CorrectDigit(n, l, h, g);
    p := Route(n, x, g);
    NeighboursDifferInOne(n, h, x);
    p := [h] + p;
  }

  lemma CorrectDigit(n: nat, l: nat, h: nat, g: nat) returns (x: nat)
    requires IsHost(n, h) && IsHost(n, g) && l <= 2 && Differ(n, l, h, g) == 1
    ensures IsHost(n, x) && Hamming(n, h, x) == 1 && Hamming(n, x, g) == Hamming(n, h, g) - 1
  {
    DigitsOf(n, h);
    DigitsOf(n, g);
    x := WithDigit(n, l, h, Digit(n, l, g));
    ComposeDigits(n, if l == 0 then Digit(n, 0, g) else Digit(n, 0, h),
      if l == 1 then Digit(n, 1, g) else Digit(n, 1, h),
                  if l == 2 then Digit(n, 2, g) else Digit(n, 2, h));
  }

  // ----- addresses

  /** The `t`-th addressed device of switch `i` of level `l`. */
  datatype Interface = Interface(l: nat, i: nat, t: nat)

  predicate Exists(n: nat, f: Interface) {
    f.l <= 2 && f.i < n * n && f.t <= n
  }

  function AddressOf(n: nat, f: Interface): Address
    requires n >= 1 && Exists(n, f)
  {
    Subnet(n, f.l, f.i)[f.t].1
  }

  /** The switch has address 1 of its subnet 10.level.switch.0, and a host on it has two more than the host's
      digit on that level. */
  lemma SubnetAddresses(n: nat, l: nat, h: nat)
    requires IsHost(n, h) && l <= 2
    ensures var i, d := SwitchOf(n, l, h), Digit(n, l, h);
      && i < n * n && d < n
      && Subnet(n, l, i)[0] == (OfSwitch, Address(l, i, 1))
      && Subnet(n, l, i)[d + 1] == (OfHost(h), Address(l, i, d + 2))
  {
    SwitchInRange(n, l, h);
    AttachedExactlyOnce(n, l, SwitchOf(n, l, h), Digit(n, l, h), h);
    hide HostAt, SwitchOf, Digit;
  }

  /** No two interfaces get the same address. */
  lemma AddressesDistinct(n: nat, f: Interface, g: Interface)
    requires n >= 1 && Exists(n, f) && Exists(n, g) && AddressOf(n, f) == AddressOf(n, g)
    ensures f == g
  {
    hide HostAt;
  }

  /** All addresses are proper host addresses of their /24 subnets exactly up to 16 ports. */
  lemma AddressesFit(n: nat)
    requires n >= 1
    ensures (forall f :: Exists(n, f) ==> ValidAddress(AddressOf(n, f))) <==> n <= 16
  {
    hide HostAt;
    if n <= 16 {
      MulOrder(n, 16, n);
      MulOrder(n, 16, 16);
    } else {
      MulOrder(17, n, n);
      assert Exists(n, Interface(0, 256, 0)) && !ValidAddress(AddressOf(n, Interface(0, 256, 0)));
    }
  }
}
