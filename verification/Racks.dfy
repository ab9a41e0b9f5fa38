/** Reading a topology file, placing racks on MPI ranks and numbering links:
    scratch/File-From-Graph-FileTM-MPI.cc. The lines of the file are given by what they say; the first
    octet of an address is always 10 and is left out. */
module Racks {
  import opened Common

  /** A line with a space, a line with "->", a line with both, or a line with neither. */
  datatype Record = NetworkEdge(sw1: nat, sw2: nat) | HostEdge(host: nat, rack: nat) | Ambiguous | Blank

  // ----- round-robin placement, lines 127-136 and 384-389

  function RackRank(rack: nat, systemCount: nat): nat
    requires systemCount > 0
  {
    rack % systemCount
  }

  function RackIdInRank(rack: nat, systemCount: nat): nat
    requires systemCount > 0
  {
    rack / systemCount
  }

  /** How many racks the creation loop puts on rank `i`. */
  function RanksShare(numTor: nat, systemCount: nat, i: nat): nat
    requires systemCount > 0
  {
    numTor / systemCount + if i < numTor % systemCount then 1 else 0
  }

  /** Every rack lands in a slot that was created, and every created slot is the place of one rack. */
  lemma PlacementOnto(numTor: nat, systemCount: nat, rank: nat, id: nat)
    requires systemCount > 0 && rank < systemCount
    ensures id < RanksShare(numTor, systemCount, rank) <==> id * systemCount + rank < numTor
    ensures RackRank(id * systemCount + rank, systemCount) == rank
      && RackIdInRank(id * systemCount + rank, systemCount) == id
  {
    var q, r := numTor / systemCount, numTor % systemCount;
    assert numTor == q * systemCount + r;
    DivMod(id * systemCount + rank, systemCount, id, rank);
    MulOrder(id + 1, q, systemCount);
    MulOrder(q + 1, id, systemCount);
    assert (id + 1) * systemCount == id * systemCount + systemCount;
    assert (q + 1) * systemCount == q * systemCount + systemCount;
  }

  /** So the placement is one-to-one onto the created slots. */
  lemma PlacementBijective(numTor: nat, systemCount: nat, rack: nat)
    requires systemCount > 0
    ensures rack < numTor
      <==> RackIdInRank(rack, systemCount) < RanksShare(numTor, systemCount, RackRank(rack, systemCount))
    ensures rack == RackIdInRank(rack, systemCount) * systemCount + RackRank(rack, systemCount)
  {
    PlacementOnto(numTor, systemCount, rack % systemCount, rack / systemCount);
  }

  function TotalShare(numTor: nat, systemCount: nat, ranks: nat): nat
    requires systemCount > 0
  {
    if ranks == 0 then 0 else TotalShare(numTor, systemCount, ranks - 1) + RanksShare(numTor, systemCount, ranks - 1)
  }

  lemma {:induction false} SharesUpTo(numTor: nat, systemCount: nat, ranks: nat)
    requires systemCount > 0
    ensures TotalShare(numTor, systemCount, ranks)
      == ranks * (numTor / systemCount) + if ranks < numTor % systemCount then ranks else numTor % systemCount
    decreases ranks
  {
    if ranks > 0 {
      SharesUpTo(numTor, systemCount, ranks - 1);
      var q := numTor / systemCount;
      assert (ranks - 1) * q + q == ranks * q;
    }
  }

  /** The containers created hold all the racks, and no more. */
  lemma SharesAddUp(numTor: nat, systemCount: nat)
    requires systemCount > 0
    ensures TotalShare(numTor, systemCount, systemCount) == numTor
  {
    SharesUpTo(numTor, systemCount, systemCount);
  }

  // ----- reading the file, lines 224-281

  /** How many lines are read: those before the first that has neither separator. */
  function UsedLength(file: seq<Record>): (n: nat)
    ensures n <= |file| && (forall i :: 0 <= i < n ==> !file[i].Blank?) && (n < |file| ==> file[n].Blank?)
  {
    if file == [] || file[0].Blank? then 0 else 1 + UsedLength(file[1..])
  }

  function NumTor(records: seq<Record>): nat {
    if records == [] then 0
    else
      var r, n := records[|records|-1], NumTor(records[..|records|-1]);
      if r.NetworkEdge? then Max(Max(n, r.sw1 + 1), r.sw2 + 1) else n
  }

  /** No line is ambiguous, and every rack was seen in a network edge before its hosts. */
  predicate Acceptable(records: seq<Record>) {
    records == [] ||
    (var r, before := records[|records|-1], records[..|records|-1];
     Acceptable(before) && !r.Ambiguous? && (r.HostEdge? ==> r.rack < NumTor(before)))
  }

  /** The network edges and the host edges, in file order. */
  function NetworkEdges(records: seq<Record>): seq<(nat, nat)> {
    if records == [] then []
    else
      var r := records[|records|-1];
      NetworkEdges(records[..|records|-1]) + if r.NetworkEdge? then [(r.sw1, r.sw2)] else []
  }

  function HostEdges(records: seq<Record>): seq<(nat, nat)> {
    if records == [] then []
    else
      var r := records[|records|-1];
      HostEdges(records[..|records|-1]) + if r.HostEdge? then [(r.rack, r.host)] else []
  }

  /** The values filed under a key, in order. */
  function Filed(edges: seq<(nat, nat)>, key: nat): seq<nat> {
    if edges == [] then []
    else Filed(edges[..|edges|-1], key) + if edges[|edges|-1].0 == key then [edges[|edges|-1].1] else []
  }

  /** The rack of a host: that of its last line. */
  function HostToTor(records: seq<Record>): map<nat, nat> {
    if records == [] then map[]
    else
      var r, m := records[|records|-1], HostToTor(records[..|records|-1]);
      if r.HostEdge? then m[r.host := r.rack] else m
  }

  predicate Contiguous(hosts: seq<nat>) {
    forall t :: 1 <= t < |hosts| ==> hosts[t] == hosts[t-1] + 1
  }

  predicate AtMost(x: nat, y: nat) {
    x <= y
  }

  /** What a successful read leaves in the static variables. */
  datatype Topology = Topology(numTor: nat, networkLinks: seq<seq<nat>>,
    hostsInTor: seq<seq<nat>>, hostToTor: map<nat, nat>)

  function TopologyOf(records: seq<Record>): Topology {
    var n := NumTor(records);
    Topology(n, Lists(NetworkEdges(records), n), SortAll(Lists(HostEdges(records), n)), HostToTor(records))
  }

  function Lists(edges: seq<(nat, nat)>, n: nat): seq<seq<nat>> {
    seq(n, i requires 0 <= i < n => Filed(edges, i))
  }

  function SortAll(lists: seq<seq<nat>>): seq<seq<nat>> {
    seq(|lists|, i requires 0 <= i < |lists| => Sort(lists[i], AtMost))
  }

  predicate KeysBelow(edges: seq<(nat, nat)>, n: nat) {
    forall k :: 0 <= k < |edges| ==> edges[k].0 < n
  }

  lemma {:induction false} AcceptablePrefix(records: seq<Record>, i: nat)
    requires i <= |records|
    ensures Acceptable(records) ==> Acceptable(records[..i])
    decreases |records|
  {
    if i < |records| {
      AcceptablePrefix(records[..|records|-1], i);
      assert records[..|records|-1][..i] == records[..i];
    } else {
      assert records[..i] == records;
    }
  }

  // ----- what the file says, line by line

  /** Every rack in a network edge is counted, and the count is one more than the largest of them. */
  lemma {:induction false} NumTorIs(records: seq<Record>)
    ensures forall r :: r in records && r.NetworkEdge? ==> r.sw1 < NumTor(records) && r.sw2 < NumTor(records)
    ensures NumTor(records) > 0 ==>
      exists r :: r in records && r.NetworkEdge? && (r.sw1 == NumTor(records) - 1 || r.sw2 == NumTor(records) - 1)
    decreases |records|
  {
    if records != [] {
      var front, last := records[..|records|-1], records[|records|-1];
      NumTorIs(front);
      assert records == front + [last];
      if NumTor(records) > 0 {
        if last.NetworkEdge? && NumTor(records) != NumTor(front) {
          assert last in records;
        } else {
          var r :| r in front && r.NetworkEdge? && (r.sw1 == NumTor(front) - 1 || r.sw2 == NumTor(front) - 1);
          assert r in records;
        }
      }
    }
  }

  /** Line `k` is not ambiguous, and the rack of a host was reached by an earlier network edge. */
  predicate LineOk(records: seq<Record>, k: nat)
    requires k < |records|
  {
    && !records[k].Ambiguous?
    && (records[k].HostEdge? ==>
          exists j :: 0 <= j < k && records[j].NetworkEdge? && records[k].rack <= Max(records[j].sw1, records[j].sw2))
  }

  lemma {:induction false} AcceptableIs(records: seq<Record>)
    ensures Acceptable(records) <==> forall k :: 0 <= k < |records| ==> LineOk(records, k)
    decreases |records|
  {
    if records != [] {
      var n := |records| - 1;
      var front, last := records[..n], records[n];
      AcceptableIs(front);
      assert forall k :: 0 <= k < n ==> LineOk(front, k) == LineOk(records, k);
      if last.HostEdge? {
        RackReached(front, last.rack);
        assert (exists r :: r in front && r.NetworkEdge? && last.rack <= Max(r.sw1, r.sw2))
          <==> exists j :: 0 <= j < n && records[j].NetworkEdge? && last.rack <= Max(records[j].sw1, records[j].sw2);
      }
      assert LineOk(records, n) <==> !last.Ambiguous? && (last.HostEdge? ==> last.rack < NumTor(front));
    }
  }

  lemma RackReached(records: seq<Record>, rack: nat)
    ensures rack < NumTor(records) <==> exists r :: r in records && r.NetworkEdge? && rack <= Max(r.sw1, r.sw2)
  {
    NumTorIs(records);
  }

  predicate Names(r: Record, host: nat) {
    r.HostEdge? && r.host == host
  }

  /** A host has a rack if some line names it, and it is that of the last such line. */
  lemma {:induction false} LastRack(records: seq<Record>, host: nat, k: nat)
    ensures host in HostToTor(records) <==> exists j :: 0 <= j < |records| && Names(records[j], host)
    ensures k < |records| && Names(records[k], host) && (forall j :: k < j < |records| ==> !Names(records[j], host))
      ==> host in HostToTor(records) && HostToTor(records)[host] == records[k].rack
    decreases |records|
  {
    if records != [] {
      var n := |records| - 1;
      var front := records[..n];
      LastRack(front, host, k);
      assert forall j :: 0 <= j < n ==> front[j] == records[j];
      if j :| 0 <= j < n && Names(front[j], host) {
        assert Names(records[j], host);
      }
    }
  }

  /** How many network edges start at a rack. */
  function EdgesAt(records: seq<Record>, rack: nat): nat {
    if records == [] then 0
    else
      var r := records[|records|-1];
      EdgesAt(records[..|records|-1], rack) + if r.NetworkEdge? && r.sw1 == rack then 1 else 0
  }

  lemma NeighboursSnoc(front: seq<Record>, r: Record, rack: nat)
    ensures Filed(NetworkEdges(front + [r]), rack)
      == Filed(NetworkEdges(front), rack) + if r.NetworkEdge? && r.sw1 == rack then [r.sw2] else []
    ensures EdgesAt(front + [r], rack) == EdgesAt(front, rack) + if r.NetworkEdge? && r.sw1 == rack then 1 else 0
  {
    assert (front + [r])[..|front|] == front;
    if r.NetworkEdge? {
      FiledSnoc(NetworkEdges(front), (r.sw1, r.sw2), rack);
    } else {
      assert NetworkEdges(front) + [] == NetworkEdges(front);
    }
  }

  /** The neighbours of a rack are the far ends of its lines, in the order of the file. */
  lemma {:induction false} NeighboursInOrder(records: seq<Record>, rack: nat, k: nat)
    ensures |Filed(NetworkEdges(records), rack)| == EdgesAt(records, rack)
    ensures k < |records| && records[k].NetworkEdge? && records[k].sw1 == rack ==>
      EdgesAt(records[..k], rack) < EdgesAt(records, rack)
      && Filed(NetworkEdges(records), rack)[EdgesAt(records[..k], rack)] == records[k].sw2
    decreases |records|
  {
    if records != [] {
      var n := |records| - 1;
      var front := records[..n];
      NeighboursInOrder(front, rack, k);
      NeighboursSnoc(front, records[n], rack);
      assert records == front + [records[n]];
      assert k < n ==> front[..k] == records[..k] && front[k] == records[k];
      hide Filed, NetworkEdges, EdgesAt;
    }
  }

  /** The hosts of a rack are those the file puts there. */
  lemma {:induction false} HostsFrom(records: seq<Record>, rack: nat, host: nat)
    ensures host in Filed(HostEdges(records), rack) <==> HostEdge(host, rack) in records
    decreases |records|
  {
    if records != [] {
      var front, last := records[..|records|-1], records[|records|-1];
      HostsFrom(front, rack, host);
      assert records == front + [last];
      if last.HostEdge? {
        FiledSnoc(HostEdges(front), (last.rack, last.host), rack);
      } else {
        assert HostEdges(front) + [] == HostEdges(front);
      }
    }
  }

  // ----- the loops that read

  /** Lines 229-254: the loop over the lines. */
  method ReadRecords(file: seq<Record>)
    returns (ok: bool, numTor: nat, networkEdges: seq<(nat, nat)>, hostEdges: seq<(nat, nat)>, hostToTor: map<nat, nat>)
    ensures var records := file[..UsedLength(file)];
      && (ok <==> Acceptable(records))
      && (ok ==> numTor == NumTor(records) && networkEdges == NetworkEdges(records) && hostEdges == HostEdges(records))
      && (ok ==> hostToTor == HostToTor(records))
  {
    ok, numTor, networkEdges, hostEdges, hostToTor := true, 0, [], [], map[];
    assert file[..0] == [] && Acceptable([]) && NumTor([]) == 0 && HostToTor([]) == map[];
    assert NetworkEdges([]) == [] && HostEdges([]) == [];
    hide UsedLength, Acceptable, NumTor, HostToTor, NetworkEdges, HostEdges;
    var i := 0;
    while i < |file| && !file[i].Blank?
      invariant 0 <= i <= UsedLength(file) && ok && Acceptable(file[..i])
      invariant numTor == NumTor(file[..i]) && hostToTor == HostToTor(file[..i])
      invariant networkEdges == NetworkEdges(file[..i]) && hostEdges == HostEdges(file[..i])
      decreases |file| - i
    {
      OneRecordMore(file, i);
      match file[i] {
      case NetworkEdge(sw1, sw2) =>
        numTor := Max(Max(numTor, sw1 + 1), sw2 + 1);
        networkEdges := networkEdges + [(sw1, sw2)];
      case HostEdge(host, rack) =>
        if rack >= numTor {
          Rejected(file, i);
          ok := false;
          return;
        }
        hostEdges := hostEdges + [(rack, host)];
        hostToTor := hostToTor[host := rack];
      case Ambiguous =>
        Rejected(file, i);
        ok := false;
        return;
      }
      i := i + 1;
    }
  }

  /** Every edge of an acceptable file is filed under a rack that is counted, and so are the neighbours. */
  lemma {:induction false} KeysCounted(records: seq<Record>)
    requires Acceptable(records)
    ensures KeysBelow(NetworkEdges(records), NumTor(records)) && KeysBelow(HostEdges(records), NumTor(records))
    ensures forall k :: 0 <= k < |NetworkEdges(records)| ==> NetworkEdges(records)[k].1 < NumTor(records)
    decreases |records|
  {
    if records != [] {
      KeysCounted(records[..|records|-1]);
    }
  }

  /** What one record more does to everything the loop keeps. */
  lemma OneRecordMore(file: seq<Record>, i: nat)
    requires i < |file|
    ensures var before, r, now := file[..i], file[i], file[..i+1];
      && (Acceptable(now) <==> Acceptable(before) && !r.Ambiguous? && (r.HostEdge? ==> r.rack < NumTor(before)))
      && NumTor(now) == (if r.NetworkEdge? then Max(Max(NumTor(before), r.sw1 + 1), r.sw2 + 1) else NumTor(before))
      && NetworkEdges(now) == NetworkEdges(before) + (if r.NetworkEdge? then [(r.sw1, r.sw2)] else [])
      && HostEdges(now) == HostEdges(before) + (if r.HostEdge? then [(r.rack, r.host)] else [])
      && HostToTor(now) == (if r.HostEdge? then HostToTor(before)[r.host := r.rack] else HostToTor(before))
  {
    assert file[..i+1][..i] == file[..i];
  }

  lemma Rejected(file: seq<Record>, i: nat)
    requires i < UsedLength(file) && !Acceptable(file[..i+1])
    ensures !Acceptable(file[..UsedLength(file)])
  {
    AcceptablePrefix(file[..UsedLength(file)], i + 1);
    assert file[..UsedLength(file)][..i+1] == file[..i+1];
  }

  /** Lines 261-270: files every value under its key. */
  method FileUnder(edges: seq<(nat, nat)>, numTor: nat) returns (lists: seq<seq<nat>>)
    requires KeysBelow(edges, numTor)
    ensures lists == Lists(edges, numTor)
  {
    lists := seq(numTor, _ => []);
    for i := 0 to |edges|
      invariant lists == Lists(edges[..i], numTor)
    {
      var link := edges[i];
      assert edges[..i+1][..i] == edges[..i];
      lists := lists[link.0 := lists[link.0] + [link.1]];
      assert forall k :: Filed(edges[..i], k) + [] == Filed(edges[..i], k);
    }
    assert edges[..|edges|] == edges;
  }

  /** Lines 271-280: sorts every rack's hosts and checks that they are contiguous. */
  method SortAndCheck(lists0: seq<seq<nat>>) returns (ok: bool, lists: seq<seq<nat>>)
    ensures ok <==> forall i :: 0 <= i < |lists0| ==> Contiguous(Sort(lists0[i], AtMost))
    ensures ok ==> lists == SortAll(lists0)
  {
    lists, ok := lists0, true;
    for i := 0 to |lists0|
      invariant ok && |lists| == |lists0|
      invariant forall k :: 0 <= k < i ==> lists[k] == Sort(lists0[k], AtMost) && Contiguous(lists[k])
      invariant forall k :: i <= k < |lists0| ==> lists[k] == lists0[k]
    {
      lists := lists[i := Sort(lists[i], AtMost)];
      var t := 1;
      while t < |lists[i]|
        invariant t >= 1 && forall u :: 1 <= u < t && u < |lists[i]| ==> lists[i][u] == lists[i][u-1] + 1
      {
        if lists[i][t] != lists[i][t-1] + 1 {
          assert !Contiguous(Sort(lists0[i], AtMost));
          return false, lists;
        }
        t := t + 1;
      }
    }
  }

  /** The sanity check at the end of the read. */
  predicate AllContiguous(lists: seq<seq<nat>>) {
    forall i :: 0 <= i < |lists| ==> Contiguous(lists[i])
  }

  /** Lines 224-281: `None` when an assertion fails or the program exits. */
  method ReadTopology(file: seq<Record>) returns (t: Option<Topology>)
    ensures var records := file[..UsedLength(file)];
      && (t.Some? <==> Acceptable(records) && AllContiguous(TopologyOf(records).hostsInTor))
      && (t.Some? ==> t.value == TopologyOf(records))
  {
    var ok, numTor, networkEdges, hostEdges, hostToTor := ReadRecords(file);
    if !ok {
      return None;
    }
    KeysCounted(file[..UsedLength(file)]);
    var networkLinks := FileUnder(networkEdges, numTor);
    var hosts := FileUnder(hostEdges, numTor);
    var contiguous, hostsInTor := SortAndCheck(hosts);
    assert forall i :: 0 <= i < |hosts| ==> SortAll(hosts)[i] == Sort(hosts[i], AtMost);
    if !contiguous {
      return None;
    }
    t := Some(Topology(numTor, networkLinks, hostsInTor, hostToTor));
  }

  // ----- addresses, lines 297-334

  /** `x | 128` for a non-negative x. */
  function SetBit7(x: nat): nat {
    if (x / 128) % 2 == 1 then x else x + 128
  }

  /** The addresses of link `h` of a rack to its hosts: the rack's end, then the host's. */
  function HostLinkAddress(rack: nat, h: nat): Address {
    Address(rack / 256, rack % 256, h * 2 + 1)
  }

  /** The first address of link `h` of a switch to its neighbours. */
  function SwitchLinkAddress(t: Topology, sw: nat, h: nat): Address
    requires sw < |t.hostsInTor|
  {
    Address(SetBit7(sw / 256), sw % 256, 2 + |t.hostsInTor[sw]| + 2 * h)
  }

  /** Lines 302-306 with 312-328: computed from the host's number alone. */
  function HostIpAddress(t: Topology, host: nat): Address
    requires host in t.hostToTor && t.hostToTor[host] < |t.hostsInTor|
    requires t.hostsInTor[t.hostToTor[host]] != [] && t.hostsInTor[t.hostToTor[host]][0] <= host
  {
    var rack := t.hostToTor[host];
    Address(rack / 256, rack % 256, (host - t.hostsInTor[rack][0]) * 2 + 2)
  }

  datatype Interface = OnHostLink(rack: nat, h: nat, lower: bool) | OnSwitchLink(sw: nat, h: nat, lower: bool)

  predicate Exists(t: Topology, f: Interface) {
    match f
    case OnHostLink(rack, h, _) => rack < |t.hostsInTor| && h < |t.hostsInTor[rack]|
    case OnSwitchLink(sw, h, _) => sw < |t.networkLinks| && sw < |t.hostsInTor| && h < |t.networkLinks[sw]|
  }

  function AddressOf(t: Topology, f: Interface): Address
    requires Exists(t, f)
  {
    match f
    case OnHostLink(rack, h, lower) => if lower then NextAddress(HostLinkAddress(rack, h)) else HostLinkAddress(rack, h)
    case OnSwitchLink(sw, h, lower) =>
      if lower then NextAddress(SwitchLinkAddress(t, sw, h)) else SwitchLinkAddress(t, sw, h)
  }

  /** The /24 subnet of an interface, as one number. The switch links of a rack share the subnet of its
      own host links or of those of the rack 32768 further on, whichever has bit 7 set. */
  function Subnet(f: Interface): nat {
    match f
    case OnHostLink(rack, _, _) => rack
    case OnSwitchLink(sw, _, _) => if HighBit(sw) then sw else sw + 32768
  }

  predicate HighBit(rack: nat) {
    (rack / 32768) % 2 == 1
  }

  lemma SubnetAddress(t: Topology, f: Interface)
    requires Exists(t, f)
    ensures AddressOf(t, f).second == Subnet(f) / 256 && AddressOf(t, f).third == Subnet(f) % 256
  {
  }

  lemma SameAddress(t: Topology, f: Interface, g: Interface)
    requires Exists(t, f) && Exists(t, g)
    ensures AddressOf(t, f) == AddressOf(t, g)
      <==> Subnet(f) == Subnet(g) && AddressOf(t, f).fourth == AddressOf(t, g).fourth
  {
    SubnetAddress(t, f);
    SubnetAddress(t, g);
    SameThird(Subnet(f), Subnet(g));
    hide Subnet, AddressOf;
  }

  function HostCount(t: Topology, rack: nat): nat {
    if rack < |t.hostsInTor| then |t.hostsInTor[rack]| else 0
  }

  function NeighbourCount(t: Topology, rack: nat): nat {
    if rack < |t.hostsInTor| && rack < |t.networkLinks| then |t.networkLinks[rack]| else 0
  }

  /** `n` numbers from `lo` and `n'` numbers from `lo'` have one in common. */
  predicate Meet(lo: nat, n: nat, lo': nat, n': nat) {
    n > 0 && n' > 0 && lo < lo' + n' && lo' < lo + n
  }

  /** In a rack's subnet, with bit 7 set, three blocks of last octets stay apart: those of the rack's host
      links, of its switch links and of the switch links of the rack 32768 before it. */
  predicate Apart(t: Topology, rack: nat)
    requires rack >= 32768
  {
    var m, d := HostCount(t, rack), NeighbourCount(t, rack);
    var m', d' := HostCount(t, rack - 32768), NeighbourCount(t, rack - 32768);
    HighBit(rack) ==>
      !Meet(1, 2 * m, m + 2, 2 * d) && !Meet(1, 2 * m, m' + 2, 2 * d') && !Meet(m + 2, 2 * d, m' + 2, 2 * d')
  }

  predicate AllApart(t: Topology) {
    forall rack :: 32768 <= rack < |t.hostsInTor| ==> Apart(t, rack)
  }

  ghost predicate NoTwoAlike(t: Topology) {
    forall f, g :: Exists(t, f) && Exists(t, g) && AddressOf(t, f) == AddressOf(t, g) ==> f == g
  }

  /** The first address of the interface's block, and the size of the block. */
  function Block(t: Topology, f: Interface): (nat, nat) {
    if f.OnHostLink? then (1, 2 * HostCount(t, f.rack)) else (HostCount(t, f.sw) + 2, 2 * NeighbourCount(t, f.sw))
  }

  /** The interface at position `k` of its block. */
  function AtPosition(f: Interface, k: nat): Interface {
    if f.OnHostLink? then OnHostLink(f.rack, k / 2, k % 2 == 1) else OnSwitchLink(f.sw, k / 2, k % 2 == 1)
  }

  function Position(f: Interface): nat {
    2 * f.h + if f.lower then 1 else 0
  }

  /** If the three blocks stay apart everywhere, different blocks of one subnet have nothing in common. */
  lemma SharedSubnet(t: Topology, f: Interface, g: Interface)
    requires AllApart(t) && Exists(t, f) && Exists(t, g) && Subnet(f) == Subnet(g)
    ensures (RackOf(f) == RackOf(g) && f.OnHostLink? == g.OnHostLink?)
      || !Meet(Block(t, f).0, Block(t, f).1, Block(t, g).0, Block(t, g).1)
  {
    var a := Subnet(f);
    if RackOf(f) != RackOf(g) || f.OnHostLink? != g.OnHostLink? {
      assert 32768 <= a < |t.hostsInTor| && HighBit(a) && (RackOf(f) == a || RackOf(f) == a - 32768);
      assert Apart(t, a);
    }
  }

  /** No two interfaces get the same address if and only if the three blocks stay apart for every rack
      from the 32769th on. */
  lemma NoCollisionExactly(t: Topology)
    ensures NoTwoAlike(t) <==> AllApart(t)
  {
    if AllApart(t) {
      forall f, g | Exists(t, f) && Exists(t, g) && AddressOf(t, f) == AddressOf(t, g) ensures f == g {
        ApartDiffer(t, f, g);
      }
    } else {
      var rack :| 32768 <= rack < |t.hostsInTor| && !Apart(t, rack);
      NotApartAlike(t, rack);
    }
  }

  lemma ApartDiffer(t: Topology, f: Interface, g: Interface)
    requires AllApart(t) && Exists(t, f) && Exists(t, g) && AddressOf(t, f) == AddressOf(t, g)
    ensures f == g
  {
    SameAddress(t, f, g);
    SharedSubnet(t, f, g);
    hide AddressOf, Exists, Subnet, AllApart;
  }

  lemma NotApartAlike(t: Topology, rack: nat)
    requires 32768 <= rack < |t.hostsInTor| && !Apart(t, rack)
    ensures !NoTwoAlike(t)
  {
    var host, sw, before := OnHostLink(rack, 0, false), OnSwitchLink(rack, 0, false),
      OnSwitchLink(rack - 32768, 0, false);
    assert Subnet(host) == Subnet(sw) == Subnet(before) == rack;
    hide HighBit, Subnet, NoTwoAlike;
    if Meet(1, 2 * HostCount(t, rack), HostCount(t, rack) + 2, 2 * NeighbourCount(t, rack)) {
      BlocksMeet(t, host, sw);
    } else if Meet(1, 2 * HostCount(t, rack), HostCount(t, rack - 32768) + 2, 2 * NeighbourCount(t, rack - 32768)) {
      BlocksMeet(t, host, before);
    } else {
      BlocksMeet(t, sw, before);
    }
  }

  lemma BlocksMeet(t: Topology, f: Interface, g: Interface)
    requires Subnet(f) == Subnet(g) && (RackOf(f) != RackOf(g) || f.OnHostLink? != g.OnHostLink?)
    requires Meet(Block(t, f).0, Block(t, f).1, Block(t, g).0, Block(t, g).1)
    ensures !NoTwoAlike(t)
  {
    var x := Max(Block(t, f).0, Block(t, g).0);
    var f', g' := AtPosition(f, x - Block(t, f).0), AtPosition(g, x - Block(t, g).0);
    hide Subnet, Block, AtPosition, Exists, AddressOf;
    SameAddress(t, f', g');
  }

  /** So with at most 32768 racks there is no collision at all. */
  lemma NoCollision(t: Topology, f: Interface, g: Interface)
    requires |t.hostsInTor| <= 32768 && Exists(t, f) && Exists(t, g) && AddressOf(t, f) == AddressOf(t, g)
    ensures f == g
  {
    NoCollisionExactly(t);
    hide AddressOf, Exists;
  }

  /** A file with 32769 racks that is read without complaint and gives two interfaces one address. */
  const COLLIDING := [NetworkEdge(32768, 0), HostEdge(0, 32768), HostEdge(1, 32768)]

  lemma CollidingFile()
    ensures UsedLength(COLLIDING) == 3 && Acceptable(COLLIDING) && AllContiguous(TopologyOf(COLLIDING).hostsInTor)
    ensures !NoTwoAlike(TopologyOf(COLLIDING))
  {
    var t := TopologyOf(COLLIDING);
    CollidingLists();
    hide NetworkEdges, HostEdges, NumTor, Acceptable, Filed, Sort;
    assert t.hostsInTor[32768] == [0, 1] && t.networkLinks[32768] == [0];
    assert !Apart(t, 32768);
    NoCollisionExactly(t);
  }

  lemma CollidingLists()
    ensures Acceptable(COLLIDING) && NumTor(COLLIDING) == 32769
    ensures Filed(NetworkEdges(COLLIDING), 32768) == [0]
    ensures forall i: nat :: Sort(Filed(HostEdges(COLLIDING), i), AtMost) == if i == 32768 then [0, 1] else []
  {
    var one: seq<Record> := [NetworkEdge(32768, 0)];
    var two := [NetworkEdge(32768, 0), HostEdge(0, 32768)];
    hide Filed, Sort;
    assert COLLIDING[..2] == two && two[..1] == one && one[..0] == [];
    assert NumTor(one) == NumTor(two) == NumTor(COLLIDING) == 32769;
    assert HostEdges(one) == [] && HostEdges(two) == [(32768, 0)] && HostEdges(COLLIDING) == [(32768, 0), (32768, 1)];
    assert NetworkEdges(one) == NetworkEdges(two) == NetworkEdges(COLLIDING) == [(32768, 0)];
    FiledTwice();
  }

  lemma FiledTwice()
    ensures forall i: nat :: Sort(Filed([(32768, 0), (32768, 1)], i), AtMost) == if i == 32768 then [0, 1] else []
  {
    var one: seq<nat> := [1];
    var two: seq<nat> := [0, 1];
    assert two[1..] == one && one[1..] == [];
    assert Sort(one, AtMost) == one && Insert(one, 0, AtMost) == two
      && Sort(two, AtMost) == two && Sort<nat>([], AtMost) == [];
    forall i: nat ensures Sort(Filed([(32768, 0), (32768, 1)], i), AtMost) == if i == 32768 then two else [] {
      hide Sort, Insert;
      FiledSnoc([], (32768, 0), i);
      FiledSnoc([(32768, 0)], (32768, 1), i);
      assert [] + [(32768, 0)] == [(32768, 0)] && [(32768, 0)] + [(32768, 1)] == [(32768, 0), (32768, 1)];
      hide Filed;
    }
  }

  /** Last octets fit a /24 subnet, and the other two fit an octet, if and only if every rack below 65536
      has at most 127 hosts and hosts and neighbours together stay within bounds, and racks from 65536 on
      have neither hosts nor neighbours. */
  lemma OctetsFit(t: Topology)
    ensures (forall f :: Exists(t, f) ==> ValidAddress(AddressOf(t, f)))
      <==> forall i: nat :: RackFits(i, HostCount(t, i), NeighbourCount(t, i))
  {
    forall f | Exists(t, f) && RackFits(RackOf(f), HostCount(t, RackOf(f)), NeighbourCount(t, RackOf(f)))
      ensures ValidAddress(AddressOf(t, f))
    {
    }
    if i: nat :| !RackFits(i, HostCount(t, i), NeighbourCount(t, i)) {
      var m, d := HostCount(t, i), NeighbourCount(t, i);
      var f := if m > 0 && (m > 127 || i >= 65536) then OnHostLink(i, m - 1, true) else OnSwitchLink(i, d - 1, true);
      SubnetAddress(t, f);
      assert Exists(t, f) && !ValidAddress(AddressOf(t, f));
    }
  }

  predicate RackFits(rack: nat, hosts: nat, neighbours: nat) {
    hosts <= 127 && (neighbours > 0 ==> 1 + hosts + 2 * neighbours <= 254)
      && (rack >= 65536 ==> hosts == neighbours == 0)
  }

  function RackOf(f: Interface): nat {
    if f.OnHostLink? then f.rack else f.sw
  }

  // ----- the address looked up for a host is the one assigned to it

  lemma {:induction false} ContiguousFrom(s: seq<nat>, i: nat)
    requires Contiguous(s) && i < |s|
    ensures s[i] == s[0] + i
    decreases i
  {
    if i > 0 {
      ContiguousFrom(s, i - 1);
    }
  }

  /** After a successful read, the address computed for the host at position `i` of a rack's list is
      the second address of link `i` of that rack exactly when the file's last word on the host is
      that rack (a host listed under two racks gets one of its addresses only). */
  lemma HostAddressIsItsOwn(file: seq<Record>, rack: nat, i: nat)
    requires var t := TopologyOf(file);
      Acceptable(file) && AllContiguous(t.hostsInTor) && rack < t.numTor && i < |t.hostsInTor[rack]|
    ensures var t := TopologyOf(file); var host := t.hostsInTor[rack][i];
      && host in t.hostToTor && t.hostToTor[host] < t.numTor && t.hostsInTor[t.hostToTor[host]] != []
      && t.hostsInTor[t.hostToTor[host]][0] <= host
      && (HostIpAddress(t, host) == NextAddress(HostLinkAddress(rack, i)) <==> t.hostToTor[host] == rack)
  {
    var t := TopologyOf(file);
    var host := t.hostsInTor[rack][i];
    InSorted(file, rack, host);
    HostKnown(file, rack, host);
    var home := t.hostToTor[host];
    InSorted(file, home, host);
    hide HostToTor, NumTor, Acceptable, HostEdges, NetworkEdges, Filed, Sort;
    var j :| 0 <= j < |t.hostsInTor[home]| && t.hostsInTor[home][j] == host;
    ContiguousFrom(t.hostsInTor[home], j);
    ContiguousFrom(t.hostsInTor[rack], i);
    hide TopologyOf;
    SameThird(home, rack);
  }

  lemma SameThird(a: nat, b: nat)
    ensures a / 256 == b / 256 && a % 256 == b % 256 <==> a == b
  {
  }

  lemma InSorted(file: seq<Record>, rack: nat, host: nat)
    ensures host in Sort(Filed(HostEdges(file), rack), AtMost) <==> host in Filed(HostEdges(file), rack)
  {
    var filed := Filed(HostEdges(file), rack);
    SortSorts(filed, AtMost);
    assert host in multiset(Sort(filed, AtMost)) <==> host in multiset(filed);
  }

  /** A host filed under some rack has a last rack, below `numTor`, and is filed there too. */
  lemma {:induction false} HostKnown(records: seq<Record>, rack: nat, host: nat)
    requires Acceptable(records) && host in Filed(HostEdges(records), rack)
    ensures host in HostToTor(records) && HostToTor(records)[host] < NumTor(records)
    ensures host in Filed(HostEdges(records), HostToTor(records)[host])
    decreases |records|
  {
    var r, before := records[|records|-1], records[..|records|-1];
    if r.HostEdge? {
      FiledSnoc(HostEdges(before), (r.rack, r.host), rack);
      FiledSnoc(HostEdges(before), (r.rack, r.host), HostToTor(records)[r.host]);
    }
    assert HostEdges(before) + [] == HostEdges(before);
    if !(r.HostEdge? && r.host == host) {
      HostKnown(before, rack, host);
      if r.HostEdge? {
        FiledSnoc(HostEdges(before), (r.rack, r.host), HostToTor(before)[host]);
      }
    }
  }

  lemma FiledSnoc(edges: seq<(nat, nat)>, e: (nat, nat), key: nat)
    ensures Filed(edges + [e], key) == Filed(edges, key) + if e.0 == key then [e.1] else []
  {
    assert (edges + [e])[..|edges|] == edges;
  }

  // ----- linking, lines 525-559

  /** A switch in the container of its rank, or a host in the container of its rack. */
  datatype End = TorEnd(rank: nat, id: nat) | HostEnd(rack: nat, index: nat)

  datatype Wire = Wire(first: End, second: End, firstAddress: Address, secondAddress: Address)

  /** `getPointerToRack`, lines 133-136; the container must hold that many switches. */
  function PointerToRack(rack: nat, numTor: nat, systemCount: nat): End
    requires systemCount > 0
    requires RackIdInRank(rack, systemCount) < RanksShare(numTor, systemCount, RackRank(rack, systemCount))
  {
    TorEnd(RackRank(rack, systemCount), RackIdInRank(rack, systemCount))
  }

  function TorOf(rack: nat, numTor: nat, systemCount: nat): End
    requires systemCount > 0 && rack < numTor
  {
    PlacementBijective(numTor, systemCount, rack);
    PointerToRack(rack, numTor, systemCount)
  }

  /** There is a list of hosts and of neighbours for every rack, and every neighbour is a rack. */
  predicate Linkable(t: Topology) {
    && |t.networkLinks| == |t.hostsInTor| == t.numTor
    && forall i, h :: 0 <= i < t.numTor && 0 <= h < |t.networkLinks[i]| ==> t.networkLinks[i][h] < t.numTor
  }

  /** The switch of a rack is the one created for it: of the switches in the container of its rank, which is one
      of the ranks, that with every rank's share of racks before it. */
  predicate IsTorOf(end: End, rack: nat, numTor: nat, systemCount: nat)
    requires systemCount > 0
  {
    && end.TorEnd? && end.rank < systemCount && end.id < RanksShare(numTor, systemCount, end.rank)
    && end.id * systemCount + end.rank == rack
  }

  lemma TorOfIs(rack: nat, numTor: nat, systemCount: nat)
    requires systemCount > 0 && rack < numTor
    ensures IsTorOf(TorOf(rack, numTor, systemCount), rack, numTor, systemCount)
  {
    PlacementBijective(numTor, systemCount, rack);
    hide RanksShare;
  }

  /** A link from the rack's own switch, with the two addresses of that interface pair. */
  predicate WiredFrom(t: Topology, systemCount: nat, w: Wire, rack: nat, near: Interface, far: Interface)
    requires systemCount > 0
  {
    && IsTorOf(w.first, rack, t.numTor, systemCount)
    && Exists(t, near) && Exists(t, far)
    && w.firstAddress == AddressOf(t, near) && w.secondAddress == AddressOf(t, far)
  }

  function HostWires(t: Topology, i: nat, systemCount: nat): seq<Wire>
    requires systemCount > 0 && Linkable(t) && i < t.numTor
  {
    seq(|t.hostsInTor[i]|, h requires 0 <= h < |t.hostsInTor[i]| =>
      Wire(TorOf(i, t.numTor, systemCount), HostEnd(i, h),
           AddressOf(t, OnHostLink(i, h, false)), AddressOf(t, OnHostLink(i, h, true))))
  }

  function SwitchWires(t: Topology, i: nat, systemCount: nat): seq<Wire>
    requires systemCount > 0 && Linkable(t) && i < t.numTor
  {
    seq(|t.networkLinks[i]|, h requires 0 <= h < |t.networkLinks[i]| =>
      Wire(TorOf(i, t.numTor, systemCount), TorOf(t.networkLinks[i][h], t.numTor, systemCount),
           AddressOf(t, OnSwitchLink(i, h, false)), AddressOf(t, OnSwitchLink(i, h, true))))
  }

  lemma HostWired(t: Topology, systemCount: nat, i: nat, h: nat)
    requires systemCount > 0 && Linkable(t) && i < t.numTor && h < |t.hostsInTor[i]|
    ensures var wires := HostWires(t, i, systemCount);
      |wires| == |t.hostsInTor[i]| && wires[h].second == HostEnd(i, h)
      && WiredFrom(t, systemCount, wires[h], i, OnHostLink(i, h, false), OnHostLink(i, h, true))
  {
    TorOfIs(i, t.numTor, systemCount);
    hide TorOf, IsTorOf, AddressOf;
  }

  lemma SwitchWired(t: Topology, systemCount: nat, i: nat, h: nat)
    requires systemCount > 0 && Linkable(t) && i < t.numTor && h < |t.networkLinks[i]|
    ensures var wires := SwitchWires(t, i, systemCount);
      |wires| == |t.networkLinks[i]| && IsTorOf(wires[h].second, t.networkLinks[i][h], t.numTor, systemCount)
      && WiredFrom(t, systemCount, wires[h], i, OnSwitchLink(i, h, false), OnSwitchLink(i, h, true))
  {
    TorOfIs(i, t.numTor, systemCount);
    TorOfIs(t.networkLinks[i][h], t.numTor, systemCount);
    hide TorOf, IsTorOf, AddressOf;
  }

  /** Lines 525-535; taking a switch from its container never fails. */
  method ConnectHosts(t: Topology, systemCount: nat) returns (sh: seq<seq<Wire>>)
    requires systemCount > 0 && Linkable(t)
    ensures |sh| == t.numTor && forall i :: 0 <= i < t.numTor ==> sh[i] == HostWires(t, i, systemCount)
    ensures forall i, h :: 0 <= i < t.numTor && 0 <= h < |t.hostsInTor[i]| ==>
      |sh[i]| == |t.hostsInTor[i]| && sh[i][h].second == HostEnd(i, h)
      && WiredFrom(t, systemCount, sh[i][h], i, OnHostLink(i, h, false), OnHostLink(i, h, true))
  {
    sh := [];
    for i := 0 to t.numTor
      invariant |sh| == i && forall k :: 0 <= k < i ==> sh[k] == HostWires(t, k, systemCount)
    {
      PlacementBijective(t.numTor, systemCount, i);
      var wires: seq<Wire> := [];
      for h := 0 to |t.hostsInTor[i]|
        invariant wires == HostWires(t, i, systemCount)[..h]
      {
        hide RanksShare, RackRank, RackIdInRank, Linkable;
        var wire := Install(PointerToRack(i, t.numTor, systemCount), HostEnd(i, h), HostLinkAddress(i, h));
        wires := wires + [wire];
      }
      sh := sh + [wires];
    }
    hide HostWires, WiredFrom;
    forall i, h | 0 <= i < t.numTor && 0 <= h < |t.hostsInTor[i]|
      ensures |sh[i]| == |t.hostsInTor[i]| && sh[i][h].second == HostEnd(i, h)
      ensures WiredFrom(t, systemCount, sh[i][h], i, OnHostLink(i, h, false), OnHostLink(i, h, true))
    {
      HostWired(t, systemCount, i, h);
    }
  }

  /** Lines 546-559; neither the switch nor its neighbour is ever missing from its container. */
  method ConnectSwitches(t: Topology, systemCount: nat) returns (ss: seq<seq<Wire>>)
    requires systemCount > 0 && Linkable(t)
    ensures |ss| == t.numTor && forall i :: 0 <= i < t.numTor ==> ss[i] == SwitchWires(t, i, systemCount)
    ensures forall i, h :: 0 <= i < t.numTor && 0 <= h < |t.networkLinks[i]| ==>
      |ss[i]| == |t.networkLinks[i]| && IsTorOf(ss[i][h].second, t.networkLinks[i][h], t.numTor, systemCount)
      && WiredFrom(t, systemCount, ss[i][h], i, OnSwitchLink(i, h, false), OnSwitchLink(i, h, true))
  {
    ss := [];
    for i := 0 to t.numTor
      invariant |ss| == i && forall k :: 0 <= k < i ==> ss[k] == SwitchWires(t, k, systemCount)
    {
      PlacementBijective(t.numTor, systemCount, i);
      var wires: seq<Wire> := [];
      for h := 0 to |t.networkLinks[i]|
        invariant wires == SwitchWires(t, i, systemCount)[..h]
      {
        var nbr := t.networkLinks[i][h];
        PlacementBijective(t.numTor, systemCount, nbr);
        hide RanksShare, RackRank, RackIdInRank, SwitchLinkAddress, Linkable;
        var wire := Install(PointerToRack(i, t.numTor, systemCount), PointerToRack(nbr, t.numTor, systemCount),
                            SwitchLinkAddress(t, i, h));
        wires := wires + [wire];
      }
      ss := ss + [wires];
    }
    hide SwitchWires, WiredFrom, IsTorOf;
    forall i, h | 0 <= i < t.numTor && 0 <= h < |t.networkLinks[i]|
      ensures |ss[i]| == |t.networkLinks[i]|
      ensures IsTorOf(ss[i][h].second, t.networkLinks[i][h], t.numTor, systemCount)
      ensures WiredFrom(t, systemCount, ss[i][h], i, OnSwitchLink(i, h, false), OnSwitchLink(i, h, true))
    {
      SwitchWired(t, systemCount, i, h);
    }
  }

  /** A link between two nodes, which get the base address and the next one. */
  method Install(first: End, second: End, base: Address) returns (wire: Wire)
    ensures wire == Wire(first, second, base, NextAddress(base))
  {
    var ips := Assign(base, [first, second]);
    wire := Wire(ips[0].0, ips[1].0, ips[0].1, ips[1].1);
  }

  lemma {:induction false} FiledFrom(edges: seq<(nat, nat)>, key: nat, x: nat)
    ensures x in Filed(edges, key) <==> (key, x) in edges
    decreases |edges|
  {
    if edges != [] {
      FiledFrom(edges[..|edges|-1], key, x);
      assert edges == edges[..|edges|-1] + [edges[|edges|-1]];
    }
  }

  lemma {:induction false} EdgesFrom(records: seq<Record>, a: nat, b: nat)
    ensures (a, b) in NetworkEdges(records) <==> NetworkEdge(a, b) in records
    decreases |records|
  {
    if records != [] {
      EdgesFrom(records[..|records|-1], a, b);
      assert records == records[..|records|-1] + [records[|records|-1]];
    }
  }

  /** Whatever is read can be linked: every neighbour is a rack that was counted. */
  lemma ReadIsLinkable(records: seq<Record>)
    requires Acceptable(records)
    ensures Linkable(TopologyOf(records))
  {
    KeysCounted(records);
    var t, edges := TopologyOf(records), NetworkEdges(records);
    hide NumTor, NetworkEdges, HostEdges, Filed, Sort, HostToTor, Acceptable;
    forall i, h | 0 <= i < t.numTor && 0 <= h < |t.networkLinks[i]| ensures t.networkLinks[i][h] < t.numTor {
      var nbr := t.networkLinks[i][h];
      FiledFrom(edges, i, nbr);
      var k :| 0 <= k < |edges| && edges[k] == (i, nbr);
    }
  }

  /** The switch of rack `a` is wired to that of rack `b` exactly when the file has that line. */
  lemma WiredAsListed(records: seq<Record>, systemCount: nat, a: nat, b: nat)
    requires systemCount > 0 && Acceptable(records) && a < NumTor(records) && b < NumTor(records)
    ensures Linkable(TopologyOf(records)) && TopologyOf(records).numTor == NumTor(records)
    ensures var t := TopologyOf(records); NetworkEdge(a, b) in records <==>
        exists w :: w in SwitchWires(t, a, systemCount) && w.second == TorOf(b, t.numTor, systemCount)
  {
    var t := TopologyOf(records);
    ReadIsLinkable(records);
    FiledFrom(NetworkEdges(records), a, b);
    EdgesFrom(records, a, b);
    hide NumTor, NetworkEdges, HostEdges, Filed, Sort, HostToTor, Acceptable, AddressOf, Linkable, TorOf;
    assert b in t.networkLinks[a] <==> NetworkEdge(a, b) in records;
    var wires, links := SwitchWires(t, a, systemCount), t.networkLinks[a];
    if b in links {
      var h :| 0 <= h < |links| && links[h] == b;
      assert wires[h] in wires;
    }
    if w :| w in wires && w.second == TorOf(b, t.numTor, systemCount) {
      var h :| 0 <= h < |wires| && wires[h] == w;
      hide TopologyOf;
      TorsDistinct(b, links[h], t.numTor, systemCount);
    }
  }

  lemma TorsDistinct(a: nat, b: nat, numTor: nat, systemCount: nat)
    requires systemCount > 0 && a < numTor && b < numTor
    ensures TorOf(a, numTor, systemCount) == TorOf(b, numTor, systemCount) ==> a == b
  {
    PlacementBijective(numTor, systemCount, a);
    PlacementBijective(numTor, systemCount, b);
  }

  /** A host's end of its link gets the address that is looked up for the host, if the rack is its last. */
  lemma HostWiredWithItsAddress(file: seq<Record>, systemCount: nat, rack: nat, h: nat)
    requires systemCount > 0
    requires var t := TopologyOf(file);
      Acceptable(file) && AllContiguous(t.hostsInTor) && rack < t.numTor && h < |t.hostsInTor[rack]|
    ensures var t := TopologyOf(file); var host := t.hostsInTor[rack][h];
      && Linkable(t) && |HostWires(t, rack, systemCount)| == |t.hostsInTor[rack]|
      && host in t.hostToTor && t.hostToTor[host] < t.numTor && t.hostsInTor[t.hostToTor[host]] != []
      && t.hostsInTor[t.hostToTor[host]][0] <= host
      && (HostWires(t, rack, systemCount)[h].secondAddress == HostIpAddress(t, host) <==> t.hostToTor[host] == rack)
  {
    ReadIsLinkable(file);
    HostAddressIsItsOwn(file, rack, h);
    hide TopologyOf, Acceptable, AllContiguous, HostIpAddress, TorOf;
  }
}
