/** The three connection loops of scratch/Fat-tree.cc for any even number `k` of ports, with the
    addresses they assign. */
module FatTree {
  import opened Common

  datatype Node =
    | Core(grp: nat, index: nat)
    | Agg(pod: nat, index: nat)
    | Edge(pod: nat, index: nat)
    | Host(pod: nat, edge: nat, index: nat)

  /** A point-to-point link: its two ends and the address of the first; the second gets the next one. */
  datatype Link = Link(upper: Node, lower: Node, first: Address)

  // ----- closed forms

  function AeLink(k: nat, i: nat, j: nat, h: nat): Link {
    Link(Agg(i, j), Edge(i, h), Address(i, j + k / 2, 2 * h + 1))
  }

  function CaLink(k: nat, i: nat, j: nat, h: nat): Link {
    Link(Core(i, j), Agg(h, i), Address(k + i, j, 2 * h + 1))
  }

  /** The devices of one edge subnet, in the order they get addresses: the switch, then its hosts. */
  function EdgeSubnet(k: nat, i: nat, j: nat): seq<(Node, Address)> {
    seq(k / 2 + 1, t requires 0 <= t <= k / 2 =>
      (if t == 0 then Edge(i, j) else Host(i, j, t - 1), Address(i, j, t + 1)))
  }

  // ----- the loops

  /** Lines 277-297: the edge switch and its hosts share a bridge and a subnet. */
  method ConnectHosts(k: nat) returns (subnets: array2<seq<(Node, Address)>>)
    ensures fresh(subnets) && subnets.Length0 == k && subnets.Length1 == k / 2
    ensures forall i, j :: 0 <= i < k && 0 <= j < k / 2 ==> subnets[i, j] == EdgeSubnet(k, i, j)
  {
    var numPod, numBridge, numHost := k, k / 2, k / 2;
    subnets := new seq<(Node, Address)>[numPod, numBridge]((_, _) => []);
    for i := 0 to numPod
      invariant forall a, b :: 0 <= a < i && 0 <= b < numBridge ==> subnets[a, b] == EdgeSubnet(k, a, b)
    {
      for j := 0 to numBridge
        invariant forall a, b :: 0 <= a < i && 0 <= b < numBridge ==> subnets[a, b] == EdgeSubnet(k, a, b)
        invariant forall b :: 0 <= b < j ==> subnets[i, b] == EdgeSubnet(k, i, b)
      {
        var hostSw: seq<Node> := [Edge(i, j)];
        for h := 0 to numHost
          invariant |hostSw| == h + 1 && hostSw[0] == Edge(i, j)
          invariant forall t :: 1 <= t < |hostSw| ==> hostSw[t] == Host(i, j, t - 1)
        {
          hostSw := hostSw + [Host(i, j, h)];
        }
        var addressed := Assign(Address(i, j, 1), hostSw);
        assert addressed == EdgeSubnet(k, i, j);
        subnets[i, j] := addressed;
      }
    }
  }

  /** Lines 304-324. */
  method ConnectAggregation(k: nat) returns (ae: array3<Link>)
    ensures fresh(ae) && ae.Length0 == k && ae.Length1 == k / 2 && ae.Length2 == k / 2
    ensures forall i, j, h :: 0 <= i < k && 0 <= j < k / 2 && 0 <= h < k / 2 ==> ae[i, j, h] == AeLink(k, i, j, h)
  {
    var numPod, numAgg, numEdge := k, k / 2, k / 2;
    ae := new Link[numPod, numAgg, numEdge]((_, _, _) => Link(Agg(0, 0), Edge(0, 0), Address(0, 0, 0)));
    for i := 0 to numPod
      invariant forall a, b, c ::
        0 <= a < i && 0 <= b < numAgg && 0 <= c < numEdge ==> ae[a, b, c] == AeLink(k, a, b, c)
    {
      for j := 0 to numAgg
        invariant forall a, b, c ::
          0 <= a < i && 0 <= b < numAgg && 0 <= c < numEdge ==> ae[a, b, c] == AeLink(k, a, b, c)
        invariant forall b, c :: 0 <= b < j && 0 <= c < numEdge ==> ae[i, b, c] == AeLink(k, i, b, c)
      {
        for h := 0 to numEdge
          invariant forall a, b, c ::
            0 <= a < i && 0 <= b < numAgg && 0 <= c < numEdge ==> ae[a, b, c] == AeLink(k, a, b, c)
          invariant forall b, c :: 0 <= b < j && 0 <= c < numEdge ==> ae[i, b, c] == AeLink(k, i, b, c)
          invariant forall c :: 0 <= c < h ==> ae[i, j, c] == AeLink(k, i, j, c)
        {
          var secondOctet, thirdOctet := i, j + k / 2;
          var fourthOctet := if h == 0 then 1 else h * 2 + 1;
          ae[i, j, h] := Link(Agg(i, j), Edge(i, h), Address(secondOctet, thirdOctet, fourthOctet));
        }
      }
    }
  }

  /** Lines 331-352, with the octet that is patched in the innermost loop. */
  method ConnectCore(k: nat) returns (ca: array3<Link>)
    ensures fresh(ca) && ca.Length0 == k / 2 && ca.Length1 == k / 2 && ca.Length2 == k
    ensures forall i, j, h :: 0 <= i < k / 2 && 0 <= j < k / 2 && 0 <= h < k ==> ca[i, j, h] == CaLink(k, i, j, h)
  {
    var numGroup, numCore, numPod := k / 2, k / 2, k;
    ca := new Link[numGroup, numCore, numPod]((_, _, _) => Link(Agg(0, 0), Edge(0, 0), Address(0, 0, 0)));
    var fourthOctet := 1;
    for i := 0 to numGroup
      invariant forall a, b, c ::
        0 <= a < i && 0 <= b < numCore && 0 <= c < numPod ==> ca[a, b, c] == CaLink(k, a, b, c)
    {
      for j := 0 to numCore
        invariant forall a, b, c ::
          0 <= a < i && 0 <= b < numCore && 0 <= c < numPod ==> ca[a, b, c] == CaLink(k, a, b, c)
        invariant forall b, c :: 0 <= b < j && 0 <= c < numPod ==> ca[i, b, c] == CaLink(k, i, b, c)
      {
        fourthOctet := 1;
        for h := 0 to numPod
          invariant fourthOctet == 2 * h + 1
          invariant forall a, b, c ::
            0 <= a < i && 0 <= b < numCore && 0 <= c < numPod ==> ca[a, b, c] == CaLink(k, a, b, c)
          invariant forall b, c :: 0 <= b < j && 0 <= c < numPod ==> ca[i, b, c] == CaLink(k, i, b, c)
          invariant forall c :: 0 <= c < h ==> ca[i, j, c] == CaLink(k, i, j, c)
        {
          ca[i, j, h] := Link(Core(i, j), Agg(h, i), Address(k + i, j, fourthOctet));
          fourthOctet := fourthOctet + 2;
        }
      }
    }
  }

  // ----- the graph the loops build

  /** Every wire, as (upper end, lower end): what the three loops record, hosts through their bridge. */
  ghost function Wires(k: nat): set<(Node, Node)> {
    (set i, j, h | 0 <= i < k && 0 <= j < k / 2 && 0 <= h < k / 2
      :: (AeLink(k, i, j, h).upper, AeLink(k, i, j, h).lower))
    + (set i, j, h | 0 <= i < k / 2 && 0 <= j < k / 2 && 0 <= h < k
      :: (CaLink(k, i, j, h).upper, CaLink(k, i, j, h).lower))
    + (set i, j, h | 0 <= i < k && 0 <= j < k / 2 && 0 <= h < k / 2 :: (Edge(i, j), Host(i, j, h)))
  }

  ghost predicate Wired(k: nat, upper: Node, lower: Node) {
    (upper, lower) in Wires(k)
  }

  /** Which pairs of nodes are wired. */
  lemma WiredIff(k: nat, u: Node, v: Node)
    ensures Wired(k, u, v) <==>
      || (u.Agg? && v.Edge? && u.pod == v.pod < k && u.index < k / 2 && v.index < k / 2)
      || (u.Core? && v.Agg? && u.grp == v.index < k / 2 && u.index < k / 2 && v.pod < k)
      || (u.Edge? && v.Host? && u.pod == v.pod < k && u.index == v.edge < k / 2 && v.index < k / 2)
  {
    if u.Agg? && v.Edge? && u.pod == v.pod < k && u.index < k / 2 && v.index < k / 2 {
      assert (u, v) == (AeLink(k, u.pod, u.index, v.index).upper, AeLink(k, u.pod, u.index, v.index).lower);
    }
    if u.Core? && v.Agg? && u.grp == v.index < k / 2 && u.index < k / 2 && v.pod < k {
      assert (u, v) == (CaLink(k, u.grp, u.index, v.pod).upper, CaLink(k, u.grp, u.index, v.pod).lower);
    }
    if u.Edge? && v.Host? && u.pod == v.pod < k && u.index == v.edge < k / 2 && v.index < k / 2 {
      assert (u, v) == (Edge(u.pod, u.index), Host(u.pod, u.index, v.index));
    }
  }

  /** The wires at a node. */
  ghost function Ports(k: nat, node: Node): set<(Node, Node)> {
    set w | w in Wires(k) && (w.0 == node || w.1 == node)
  }

  lemma ImageStep<T(!new)>(m: nat, f: int -> T)
    requires m > 0 && forall a, b :: 0 <= a < b < m ==> f(a) != f(b)
    ensures f(m - 1) !in set a | 0 <= a < m - 1 :: f(a)
    ensures (set a | 0 <= a < m :: f(a)) == (set a | 0 <= a < m - 1 :: f(a)) + {f(m - 1)}
  {
    assert forall a :: 0 <= a < m - 1 ==> f(a) != f(m - 1);
  }

  lemma {:induction false} ImageSize<T(!new)>(m: nat, f: int -> T)
    requires forall a, b :: 0 <= a < b < m ==> f(a) != f(b)
    ensures |set a | 0 <= a < m :: f(a)| == m
    decreases m
  {
    if m > 0 {
      ImageSize(m - 1, f);
      ImageStep(m, f);
    } else {
      assert (set a | 0 <= a < m :: f(a)) == {};
    }
  }

  lemma CorePorts(k: nat, i: nat, j: nat)
    requires i < k / 2 && j < k / 2
    ensures |Ports(k, Core(i, j))| == k
  {
    var f := (h: int) => (Core(i, j), if h >= 0 then Agg(h, i) else Core(i, j));
    forall w ensures w in Ports(k, Core(i, j)) <==> w in set h | 0 <= h < k :: f(h) {
      WiredIff(k, w.0, w.1);
      if w in Ports(k, Core(i, j)) {
        assert w == f(w.1.pod);
      }
    }
    assert Ports(k, Core(i, j)) == set h | 0 <= h < k :: f(h);
    ImageSize(k, f);
  }

  /** The ports of a node split into those where it is the lower end and those where it is the upper. */
  lemma TwoSides(k: nat, node: Node, up: set<(Node, Node)>, down: set<(Node, Node)>)
    requires forall w :: w in up <==> w in Wires(k) && w.1 == node
    requires forall w :: w in down <==> w in Wires(k) && w.0 == node
    requires (node, node) !in Wires(k)
    ensures |Ports(k, node)| == |up| + |down|
  {
    assert Ports(k, node) == up + down;
    assert up !! down;
  }

  lemma AggPorts(k: nat, p: nat, x: nat)
    requires p < k && x < k / 2 && k % 2 == 0
    ensures |Ports(k, Agg(p, x))| == k
  {
    var f := (j: int) => (if j >= 0 then Core(x, j) else Agg(p, x), Agg(p, x));
    var g := (h: int) => (Agg(p, x), if h >= 0 then Edge(p, h) else Agg(p, x));
    var up, down := set j | 0 <= j < k / 2 :: f(j), set h | 0 <= h < k / 2 :: g(h);
    forall w ensures (w in up <==> w in Wires(k) && w.1 == Agg(p, x))
      && (w in down <==> w in Wires(k) && w.0 == Agg(p, x)) {
      WiredIff(k, w.0, w.1);
      if w in Wires(k) && w.1 == Agg(p, x) {
        assert w == f(w.0.index);
      }
      if w in Wires(k) && w.0 == Agg(p, x) {
        assert w == g(w.1.index);
      }
    }
    WiredIff(k, Agg(p, x), Agg(p, x));
    TwoSides(k, Agg(p, x), up, down);
    ImageSize(k / 2, f);
    ImageSize(k / 2, g);
  }

  lemma EdgePorts(k: nat, p: nat, e: nat)
    requires p < k && e < k / 2 && k % 2 == 0
    ensures |Ports(k, Edge(p, e))| == k
  {
    var f := (j: int) => (if j >= 0 then Agg(p, j) else Edge(p, e), Edge(p, e));
    var g := (h: int) => (Edge(p, e), if h >= 0 then Host(p, e, h) else Edge(p, e));
    var up, down := set j | 0 <= j < k / 2 :: f(j), set h | 0 <= h < k / 2 :: g(h);
    forall w ensures (w in up <==> w in Wires(k) && w.1 == Edge(p, e))
      && (w in down <==> w in Wires(k) && w.0 == Edge(p, e)) {
      WiredIff(k, w.0, w.1);
      if w in Wires(k) && w.1 == Edge(p, e) {
        assert w == f(w.0.index);
      }
      if w in Wires(k) && w.0 == Edge(p, e) {
        assert w == g(w.1.index);
      }
    }
    WiredIff(k, Edge(p, e), Edge(p, e));
    TwoSides(k, Edge(p, e), up, down);
    ImageSize(k / 2, f);
    ImageSize(k / 2, g);
  }

  /** The values of `f` on an m by n grid, row by row. */
  ghost function Grid<T(!new)>(m: nat, n: nat, f: (int, int) -> T): set<T> {
    if m == 0 then {} else Grid(m - 1, n, f) + Row(m - 1, n, f)
  }

  ghost function Row<T(!new)>(a: nat, n: nat, f: (int, int) -> T): set<T> {
    var g := b => f(a, b);
    set b | 0 <= b < n :: g(b)
  }

  lemma {:induction false} InGrid<T(!new)>(m: nat, n: nat, f: (int, int) -> T, x: T)
    ensures x in Grid(m, n, f) <==> exists a, b :: 0 <= a < m && 0 <= b < n && f(a, b) == x
    decreases m
  {
    if m > 0 {
      InGrid(m - 1, n, f, x);
      InRow(m - 1, n, f, x);
    }
  }

  lemma InRow<T(!new)>(a: nat, n: nat, f: (int, int) -> T, x: T)
    ensures x in Row(a, n, f) <==> exists b :: 0 <= b < n && f(a, b) == x
  {
    var g := b => f(a, b);
    assert forall b :: g(b) == f(a, b);
  }

  ghost predicate Injective<T(!new)>(m: nat, n: nat, f: (int, int) -> T) {
    forall a, b, c, d :: 0 <= a < m && 0 <= b < n && 0 <= c < m && 0 <= d < n && f(a, b) == f(c, d) ==> a == c && b == d
  }

  /** The last row is disjoint from the rows before it and has n values. */
  lemma LastRow<T(!new)>(m: nat, n: nat, f: (int, int) -> T)
    requires m > 0 && Injective(m, n, f)
    ensures Injective(m - 1, n, f) && Grid(m - 1, n, f) !! Row(m - 1, n, f) && |Row(m - 1, n, f)| == n
  {
    var rest, row := Grid(m - 1, n, f), Row(m - 1, n, f);
    forall x | x in rest ensures x !in row {
      InGrid(m - 1, n, f, x);
      InRow(m - 1, n, f, x);
    }
    ImageSize(n, b => f(m - 1, b));
  }

  lemma {:induction false} GridSize<T(!new)>(m: nat, n: nat, f: (int, int) -> T)
    requires Injective(m, n, f)
    ensures |Grid(m, n, f)| == m * n
    decreases m
  {
    hide Injective, Row;
    if m > 0 {
      LastRow(m, n, f);
      GridSize(m - 1, n, f);
    }
  }

  /** The hosts of the first `pods` pods, `m` to a switch and `m` switches to a pod. */
  ghost function HostsOfPods(m: nat, pods: nat): set<Node> {
    set i, j, h | 0 <= i < pods && 0 <= j < m && 0 <= h < m :: Host(i, j, h)
  }

  /** `total_host`, line 130: k^3/4 hosts. */
  lemma HostCount(k: nat)
    requires k % 2 == 0
    ensures |HostsOfPods(k / 2, k)| == k * k * k / 4
  {
    var m := k / 2;
    PodHosts(m, k);
    assert k == 2 * m;
    assert k * (m * m) == 2 * (m * (m * m));
    assert k * k * k == 8 * (m * (m * m)) by {
      assert k * k == 4 * (m * m);
      assert (4 * (m * m)) * (2 * m) == 8 * ((m * m) * m);
    }
  }

  lemma PodSize(m: nat, p: nat) returns (pod: set<Node>)
    ensures |pod| == m * m
    ensures forall x :: x in pod <==> x.Host? && x.pod == p && x.edge < m && x.index < m
  {
    var f := (j: int, h: int) => if j >= 0 && h >= 0 then Host(p, j, h) else Core(0, 0);
    GridSize(m, m, f);
    pod := Grid(m, m, f);
    forall x ensures x in pod <==> x.Host? && x.pod == p && x.edge < m && x.index < m {
      InGrid(m, m, f, x);
      if x.Host? && x.pod == p && x.edge < m && x.index < m {
        assert f(x.edge, x.index) == x;
      }
    }
  }

  lemma {:induction false} PodHosts(m: nat, pods: nat)
    ensures |HostsOfPods(m, pods)| == pods * (m * m)
    decreases pods
  {
    if pods > 0 {
      PodHosts(m, pods - 1);
      var pod := PodSize(m, pods - 1);
      SplitPods(m, pods, pod);
    } else {
      assert HostsOfPods(m, pods) == {};
    }
  }

  lemma SplitPods(m: nat, pods: nat, pod: set<Node>)
    requires pods > 0
    requires forall x :: x in pod <==> x.Host? && x.pod == pods - 1 && x.edge < m && x.index < m
    ensures |HostsOfPods(m, pods)| == |HostsOfPods(m, pods - 1)| + |pod|
  {
    assert forall x :: x in HostsOfPods(m, pods) <==> x.Host? && x.pod < pods && x.edge < m && x.index < m;
    assert forall x :: x in HostsOfPods(m, pods - 1) <==> x.Host? && x.pod < pods - 1 && x.edge < m && x.index < m;
    assert HostsOfPods(m, pods) == HostsOfPods(m, pods - 1) + pod;
  }

  /** A core switch reaches each pod through exactly one aggregation switch: that of its group. */
  lemma OneAggregationPerPod(k: nat, i: nat, j: nat, p: nat, x: nat)
    requires i < k / 2 && j < k / 2 && p < k && x < k / 2
    ensures Wired(k, Core(i, j), Agg(p, x)) <==> x == i
  {
    WiredIff(k, Core(i, j), Agg(p, x));
  }

  /** Up from edge switch `a` of pod `p` to a core switch and down to edge switch `b` of pod `q`. */
  ghost predicate CorePath(k: nat, p: nat, a: nat, q: nat, b: nat, path: (Node, Node, Node)) {
    && Wired(k, path.0, Edge(p, a)) && Wired(k, path.1, path.0) && path.0.Agg?
    && Wired(k, path.1, path.2) && Wired(k, path.2, Edge(q, b)) && path.1.Core?
  }

  /** Two edge switches in different pods are joined by exactly (k/2)^2 paths over the core. */
  lemma CorePathCount(k: nat, p: nat, a: nat, q: nat, b: nat, paths: set<(Node, Node, Node)>)
    requires p < k && q < k && a < k / 2 && b < k / 2
    requires forall path :: path in paths <==> CorePath(k, p, a, q, b, path)
    ensures |paths| == (k / 2) * (k / 2)
  {
    var m := k / 2;
    var f := (x: int, y: int) =>
      if x >= 0 && y >= 0 then (Agg(p, x), Core(x, y), Agg(q, x)) else (Agg(0, 0), Agg(0, 0), Agg(0, 0));
    forall path ensures path in paths <==> path in Grid(m, m, f) {
      WiredIff(k, path.0, Edge(p, a));
      WiredIff(k, path.1, path.0);
      WiredIff(k, path.1, path.2);
      WiredIff(k, path.2, Edge(q, b));
      InGrid(m, m, f, path);
      if path in paths {
        assert path == f(path.0.index, path.1.index);
      }
    }
    assert paths == Grid(m, m, f);
    GridSize(m, m, f);
  }

  // ----- addresses

  /** An interface: device `t` of an edge subnet, or the upper or lower end of a link. */
  datatype Interface =
    | OnEdge(i: nat, j: nat, t: nat)
    | OnAe(i: nat, j: nat, h: nat, lower: bool)
    | OnCa(i: nat, j: nat, h: nat, lower: bool)

  predicate Exists(k: nat, f: Interface) {
    match f
    case OnEdge(i, j, t) => i < k && j < k / 2 && t <= k / 2
    case OnAe(i, j, h, _) => i < k && j < k / 2 && h < k / 2
    case OnCa(i, j, h, _) => i < k / 2 && j < k / 2 && h < k
  }

  function AddressOf(k: nat, f: Interface): Address
    requires Exists(k, f)
  {
    match f
    case OnEdge(i, j, t) => EdgeSubnet(k, i, j)[t].1
    case OnAe(i, j, h, lower) => if lower then NextAddress(AeLink(k, i, j, h).first) else AeLink(k, i, j, h).first
    case OnCa(i, j, h, lower) => if lower then NextAddress(CaLink(k, i, j, h).first) else CaLink(k, i, j, h).first
  }

  /** Which address each device gets: the switch and the hosts of a subnet count up from 1, and the two ends
      of a link get 2h + 1 and 2h + 2, the upper end first. */
  lemma WhoGetsWhat(k: nat, i: nat, j: nat, h: nat)
    ensures i < k && j < k / 2 ==> EdgeSubnet(k, i, j)[0] == (Edge(i, j), Address(i, j, 1))
    ensures i < k && j < k / 2 && h < k / 2 ==> EdgeSubnet(k, i, j)[h + 1] == (Host(i, j, h), Address(i, j, h + 2))
    ensures i < k && j < k / 2 && h < k / 2 ==>
      && AeLink(k, i, j, h).upper == Agg(i, j) && AeLink(k, i, j, h).lower == Edge(i, h)
      && AddressOf(k, OnAe(i, j, h, false)) == Address(i, k / 2 + j, 2 * h + 1)
      && AddressOf(k, OnAe(i, j, h, true)) == Address(i, k / 2 + j, 2 * h + 2)
    ensures i < k / 2 && j < k / 2 && h < k ==>
      && CaLink(k, i, j, h).upper == Core(i, j) && CaLink(k, i, j, h).lower == Agg(h, i)
      && AddressOf(k, OnCa(i, j, h, false)) == Address(k + i, j, 2 * h + 1)
      && AddressOf(k, OnCa(i, j, h, true)) == Address(k + i, j, 2 * h + 2)
  {
  }

  /** No two interfaces get the same address. */
  lemma AddressesDistinct(k: nat, f: Interface, g: Interface)
    requires Exists(k, f) && Exists(k, g) && AddressOf(k, f) == AddressOf(k, g)
    ensures f == g
  {
  }

  /** All addresses are proper host addresses of a /24 subnet exactly up to 126 ports. */
  lemma AddressesValid(k: nat)
    requires k % 2 == 0
    ensures (forall f :: Exists(k, f) ==> ValidAddress(AddressOf(k, f))) <==> k <= 126
  {
    if k > 126 {
      var f := OnCa(0, 0, 127, true);
      assert Exists(k, f) && !ValidAddress(AddressOf(k, f));
    }
  }
}
