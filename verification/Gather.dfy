/** The path gatherer of utils/print-introspected-doxygen.cc: a depth-first search over the graph of
    object types that keeps its path and the types on it in two member stacks. */
module Gather {
  import opened Common

  type TypeId = nat

  datatype Attribute =
    | PointerAttribute(name: string, pointee: TypeId)
    | ContainerAttribute(name: string, item: TypeId)
    | PlainAttribute(name: string)

  /** What the search asks the type registry: the attributes of a type, the registered types in order,
      which types derive from which, and the `$name` label under which a type appears in a path. */
  datatype Registry = Registry(attributes: map<TypeId, seq<Attribute>>, registered: seq<TypeId>,
                               childOf: set<(TypeId, TypeId)>, labels: map<TypeId, string>)

  type Aggregates = seq<(TypeId, TypeId)>

  type Edge = (string, TypeId)

  // ----- the edges of a type, in the order the three loops visit them

  function AttributeEdge(a: Attribute): seq<Edge> {
    match a
    case PointerAttribute(name, pointee) => [(name, pointee)]
    case ContainerAttribute(name, item) => [(name + "/[i]", item)]
    case PlainAttribute(_) => []
  }

  function AttributeEdges(attributes: seq<Attribute>): seq<Edge> {
    if attributes == [] then []
    else AttributeEdges(attributes[..|attributes|-1]) + AttributeEdge(attributes[|attributes|-1])
  }

  function ChildEdge(reg: Registry, child: TypeId, t: TypeId): seq<Edge>
    requires child in reg.labels
  {
    if (child, t) in reg.childOf then [(reg.labels[child], child)] else []
  }

  function ChildEdges(reg: Registry, types: seq<TypeId>, t: TypeId): seq<Edge>
    requires Elements(types) <= reg.labels.Keys
  {
    if types == [] then []
    else ChildEdges(reg, types[..|types|-1], t) + ChildEdge(reg, types[|types|-1], t)
  }

  /** The other side of an aggregation; an aggregation of a type with itself leads back to it. */
  function Other(pair: (TypeId, TypeId), t: TypeId): TypeId
    requires pair.0 == t || pair.1 == t
  {
    if pair.1 == t then pair.0 else pair.1
  }

  function AggregateEdge(reg: Registry, pair: (TypeId, TypeId), t: TypeId): seq<Edge>
    requires pair.0 in reg.labels && pair.1 in reg.labels
  {
    if pair.0 == t || pair.1 == t then [(reg.labels[Other(pair, t)], Other(pair, t))] else []
  }

  function AggregateEdges(reg: Registry, aggregates: Aggregates, t: TypeId): seq<Edge>
    requires forall p :: p in aggregates ==> p.0 in reg.labels && p.1 in reg.labels
  {
    if aggregates == [] then []
    else AggregateEdges(reg, aggregates[..|aggregates|-1], t) + AggregateEdge(reg, aggregates[|aggregates|-1], t)
  }

  /** Every type that can be met has attributes and a label. */
  ghost predicate Closed(reg: Registry, aggregates: Aggregates) {
    && reg.attributes.Keys == reg.labels.Keys && Elements(reg.registered) <= reg.labels.Keys
    && (forall p :: p in aggregates ==> p.0 in reg.labels && p.1 in reg.labels)
    && (forall t, a :: t in reg.attributes && a in reg.attributes[t] ==>
          && (a.PointerAttribute? ==> a.pointee in reg.labels)
          && (a.ContainerAttribute? ==> a.item in reg.labels))
  }

  ghost function Edges(reg: Registry, aggregates: Aggregates, t: TypeId): seq<Edge>
    requires Closed(reg, aggregates) && t in reg.labels
  {
    AttributeEdges(reg.attributes[t]) + ChildEdges(reg, reg.registered, t) + AggregateEdges(reg, aggregates, t)
  }

  ghost predicate Targets(reg: Registry, edges: seq<Edge>) {
    forall e :: e in edges ==> e.1 in reg.labels
  }

  lemma {:induction false} AttributeEdgesAre(attributes: seq<Attribute>, e: Edge)
    ensures e in AttributeEdges(attributes) <==>
      || PointerAttribute(e.0, e.1) in attributes
      || exists name :: ContainerAttribute(name, e.1) in attributes && e.0 == name + "/[i]"
    decreases |attributes|
  {
    if attributes != [] {
      var front, last := attributes[..|attributes|-1], attributes[|attributes|-1];
      AttributeEdgesAre(front, e);
      assert attributes == front + [last];
      assert forall a :: a in attributes <==> a in front || a == last;
    }
  }

  lemma {:induction false} ChildEdgesAre(reg: Registry, types: seq<TypeId>, t: TypeId, e: Edge)
    requires Elements(types) <= reg.labels.Keys
    ensures e in ChildEdges(reg, types, t) <==> e.1 in types && (e.1, t) in reg.childOf && e.0 == reg.labels[e.1]
    decreases |types|
  {
    if types != [] {
      var front, last := types[..|types|-1], types[|types|-1];
      ChildEdgesAre(reg, front, t, e);
      assert types == front + [last];
    }
  }

  lemma {:induction false} AggregateEdgesAre(reg: Registry, aggregates: Aggregates, t: TypeId, e: Edge)
    requires forall p :: p in aggregates ==> p.0 in reg.labels && p.1 in reg.labels
    ensures e in AggregateEdges(reg, aggregates, t)
      <==> ((t, e.1) in aggregates || (e.1, t) in aggregates) && e.0 == reg.labels[e.1]
    decreases |aggregates|
  {
    if aggregates != [] {
      var front, last := aggregates[..|aggregates|-1], aggregates[|aggregates|-1];
      AggregateEdgesAre(reg, front, t, e);
      assert aggregates == front + [last];
    }
  }

  /** A type leads to the type its pointer or container attributes refer to, to the registered types derived
      from it, and to the other side of its aggregations, under these labels. */
  ghost predicate Leads(reg: Registry, aggregates: Aggregates, t: TypeId, name: string, target: TypeId)
    requires Closed(reg, aggregates) && t in reg.labels
  {
    || PointerAttribute(name, target) in reg.attributes[t]
    || (exists base :: ContainerAttribute(base, target) in reg.attributes[t] && name == base + "/[i]")
    || (target in reg.registered && (target, t) in reg.childOf && name == reg.labels[target])
    || (((t, target) in aggregates || (target, t) in aggregates) && name == reg.labels[target])
  }

  lemma EdgesAre(reg: Registry, aggregates: Aggregates, t: TypeId, e: Edge)
    requires Closed(reg, aggregates) && t in reg.labels
    ensures e in Edges(reg, aggregates, t) <==> Leads(reg, aggregates, t, e.0, e.1)
  {
    AttributeEdgesAre(reg.attributes[t], e);
    ChildEdgesAre(reg, reg.registered, t, e);
    AggregateEdgesAre(reg, aggregates, t, e);
    hide AttributeEdges, ChildEdges, AggregateEdges;
  }

  lemma EdgeTargets(reg: Registry, aggregates: Aggregates, t: TypeId)
    requires Closed(reg, aggregates) && t in reg.labels
    ensures Targets(reg, AttributeEdges(reg.attributes[t])) && Targets(reg, ChildEdges(reg, reg.registered, t))
    ensures Targets(reg, AggregateEdges(reg, aggregates, t)) && Targets(reg, Edges(reg, aggregates, t))
  {
    hide AttributeEdges, ChildEdges, AggregateEdges;
    forall e | e in Edges(reg, aggregates, t) ensures e.1 in reg.labels {
      EdgesAre(reg, aggregates, t, e);
    }
  }

  // ----- what the search records

  /** What `GetCurrentPath` makes of the stack of labels, lines 138-148. */
  function PathString(path: seq<string>): string {
    if path == [] then "" else PathString(path[..|path|-1]) + "/" + path[|path|-1]
  }

  /** Every label with a "/" before it, one after the other. */
  lemma {:induction false} PathStringIs(path: seq<string>, rest: seq<string>, name: string)
    ensures PathString([]) == "" && PathString([name]) == "/" + name
    ensures PathString(path + rest) == PathString(path) + PathString(rest)
    decreases |rest|
  {
    assert [name][..0] == [];
    if rest == [] {
      assert path + rest == path;
    } else {
      var front := rest[..|rest|-1];
      PathStringIs(path, front, name);
      assert (path + rest)[..|path+rest|-1] == path + front;
    }
  }

  type Record = (TypeId, string)

  /** The records made by a visit of `t` when `processed` are the types on the path so far. */
  ghost function Visit(reg: Registry, aggregates: Aggregates, t: TypeId,
                       processed: seq<TypeId>, path: seq<string>): seq<Record>
    requires Closed(reg, aggregates) && t in reg.labels
    decreases reg.labels.Keys - Elements(processed), 0
  {
    if t in processed then []
    else
      EdgeTargets(reg, aggregates, t);
      assert t in reg.labels.Keys - Elements(processed) && t in Elements(processed + [t]);
      [(t, PathString(path))] + VisitAll(reg, aggregates, Edges(reg, aggregates, t), processed + [t], path)
  }

  ghost function VisitAll(reg: Registry, aggregates: Aggregates, edges: seq<Edge>,
                          processed: seq<TypeId>, path: seq<string>): seq<Record>
    requires Closed(reg, aggregates) && Targets(reg, edges)
    decreases reg.labels.Keys - Elements(processed), 1, |edges|
  {
    if edges == [] then []
    else
      Visit(reg, aggregates, edges[0].1, processed, path + [edges[0].0])
      + VisitAll(reg, aggregates, edges[1..], processed, path)
  }

  lemma {:induction false} VisitAllConcat(reg: Registry, aggregates: Aggregates, a: seq<Edge>, b: seq<Edge>,
                                          processed: seq<TypeId>, path: seq<string>)
    requires Closed(reg, aggregates) && Targets(reg, a) && Targets(reg, b)
    ensures Targets(reg, a + b)
    ensures VisitAll(reg, aggregates, a + b, processed, path)
            == VisitAll(reg, aggregates, a, processed, path) + VisitAll(reg, aggregates, b, processed, path)
    decreases |a|
  {
    if a == [] {
      assert a + b == b;
    } else {
      assert (a + b)[1..] == a[1..] + b;
      VisitAllConcat(reg, aggregates, a[1..], b, processed, path);
    }
  }

  lemma VisitTwice(reg: Registry, aggregates: Aggregates, t: TypeId, processed: seq<TypeId>, path: seq<string>)
    requires Closed(reg, aggregates) && t in reg.labels && t in processed
    ensures Visit(reg, aggregates, t, processed, path) == []
  {
  }

  lemma VisitOne(reg: Registry, aggregates: Aggregates, edge: Edge, processed: seq<TypeId>, path: seq<string>)
    requires Closed(reg, aggregates) && edge.1 in reg.labels
    ensures VisitAll(reg, aggregates, [edge], processed, path)
      == Visit(reg, aggregates, edge.1, processed, path + [edge.0])
  {
  }

  lemma VisitUnfold(reg: Registry, aggregates: Aggregates, t: TypeId, processed: seq<TypeId>, path: seq<string>)
    requires Closed(reg, aggregates) && t in reg.labels && t !in processed
    ensures Targets(reg, AttributeEdges(reg.attributes[t])) && Targets(reg, ChildEdges(reg, reg.registered, t))
    ensures Targets(reg, AggregateEdges(reg, aggregates, t))
    ensures Visit(reg, aggregates, t, processed, path)
            == [(t, PathString(path))]
              + VisitAll(reg, aggregates, AttributeEdges(reg.attributes[t]), processed + [t], path)
               + VisitAll(reg, aggregates, ChildEdges(reg, reg.registered, t), processed + [t], path)
               + VisitAll(reg, aggregates, AggregateEdges(reg, aggregates, t), processed + [t], path)
  {
    VisitFirst(reg, aggregates, t, processed, path);
    var a, b, c := AttributeEdges(reg.attributes[t]), ChildEdges(reg, reg.registered, t),
      AggregateEdges(reg, aggregates, t);
    assert Edges(reg, aggregates, t) == a + b + c;
    VisitThree(reg, aggregates, a, b, c, processed + [t], path, (t, PathString(path)));
    hide *;
  }

  lemma VisitThree(reg: Registry, aggregates: Aggregates, a: seq<Edge>, b: seq<Edge>, c: seq<Edge>,
                   processed: seq<TypeId>, path: seq<string>, first: Record)
    requires Closed(reg, aggregates) && Targets(reg, a) && Targets(reg, b) && Targets(reg, c)
    ensures Targets(reg, a + b + c)
    ensures [first] + VisitAll(reg, aggregates, a + b + c, processed, path)
            == [first] + VisitAll(reg, aggregates, a, processed, path) + VisitAll(reg, aggregates, b, processed, path)
               + VisitAll(reg, aggregates, c, processed, path)
  {
    hide *;
    VisitAllConcat(reg, aggregates, a, b, processed, path);
    VisitAllConcat(reg, aggregates, a + b, c, processed, path);
  }

  lemma VisitFirst(reg: Registry, aggregates: Aggregates, t: TypeId, processed: seq<TypeId>, path: seq<string>)
    requires Closed(reg, aggregates) && t in reg.labels && t !in processed
    ensures Targets(reg, AttributeEdges(reg.attributes[t])) && Targets(reg, ChildEdges(reg, reg.registered, t))
    ensures Targets(reg, AggregateEdges(reg, aggregates, t)) && Targets(reg, Edges(reg, aggregates, t))
    ensures Visit(reg, aggregates, t, processed, path)
            == [(t, PathString(path))] + VisitAll(reg, aggregates, Edges(reg, aggregates, t), processed + [t], path)
  {
    EdgeTargets(reg, aggregates, t);
    hide VisitAll, AttributeEdges, ChildEdges, AggregateEdges, PathString;
  }

  // ----- the simple paths of the type graph

  /** A path through distinct types along edges with the given labels. */
  ghost predicate SimplePath(reg: Registry, aggregates: Aggregates, nodes: seq<TypeId>, labels: seq<string>)
    requires Closed(reg, aggregates)
  {
    && |nodes| == |labels| + 1
    && (forall i :: 0 <= i < |nodes| ==> nodes[i] in reg.labels)
    && (forall i, j :: 0 <= i < j < |nodes| ==> nodes[i] != nodes[j])
    && (forall i :: 0 <= i < |labels| ==> Leads(reg, aggregates, nodes[i], labels[i], nodes[i+1]))
  }

  /** A simple path from `t` to the recorded type that avoids `processed` and spells the record. */
  ghost predicate Spells(reg: Registry, aggregates: Aggregates, t: TypeId, processed: seq<TypeId>, path: seq<string>,
                         nodes: seq<TypeId>, labels: seq<string>, r: Record)
    requires Closed(reg, aggregates)
  {
    && SimplePath(reg, aggregates, nodes, labels)
    && nodes[0] == t && nodes[|nodes|-1] == r.0
    && (forall i :: 0 <= i < |nodes| ==> nodes[i] !in processed)
    && r.1 == PathString(path + labels)
  }

  /** Every record comes from a simple path. */
  lemma {:induction false} VisitSound(reg: Registry, aggregates: Aggregates, t: TypeId, processed: seq<TypeId>,
                                      path: seq<string>, r: Record)
    returns (nodes: seq<TypeId>, labels: seq<string>)
    requires Closed(reg, aggregates) && t in reg.labels
    requires r in Visit(reg, aggregates, t, processed, path)
    ensures Spells(reg, aggregates, t, processed, path, nodes, labels, r)
    decreases reg.labels.Keys - Elements(processed), 0
  {
    EdgeTargets(reg, aggregates, t);
    if r == (t, PathString(path)) {
      assert path + [] == path;
      return [t], [];
    }
    assert t in reg.labels.Keys - Elements(processed) && t in Elements(processed + [t]);
    var edge, n, l := VisitAllSound(reg, aggregates, Edges(reg, aggregates, t), processed + [t], path, r);
    nodes, labels := [t] + n, [edge.0] + l;
    PrependSpells(reg, aggregates, t, processed, path, edge, n, l, r);
  }

  lemma PrependSpells(reg: Registry, aggregates: Aggregates, t: TypeId, processed: seq<TypeId>, path: seq<string>,
                      edge: Edge, n: seq<TypeId>, l: seq<string>, r: Record)
    requires Closed(reg, aggregates) && t in reg.labels && t !in processed && edge in Edges(reg, aggregates, t)
    requires Spells(reg, aggregates, edge.1, processed + [t], path + [edge.0], n, l, r)
    ensures Spells(reg, aggregates, t, processed, path, [t] + n, [edge.0] + l, r)
  {
    var nodes, labels := [t] + n, [edge.0] + l;
    assert path + [edge.0] + l == path + labels;
    EdgesAre(reg, aggregates, t, edge);
    hide Edges, Leads, Closed, PathString;
    assert forall i :: 0 <= i < |n| ==> n[i] != t;
    forall i | 0 <= i < |labels| ensures Leads(reg, aggregates, nodes[i], labels[i], nodes[i+1]) {
      if i > 0 {
        assert labels[i] == l[i-1] && nodes[i] == n[i-1] && nodes[i+1] == n[i];
      }
    }
  }

  lemma {:induction false} VisitAllSound(reg: Registry, aggregates: Aggregates, edges: seq<Edge>,
                                         processed: seq<TypeId>, path: seq<string>, r: Record)
    returns (edge: Edge, nodes: seq<TypeId>, labels: seq<string>)
    requires Closed(reg, aggregates) && Targets(reg, edges)
    requires r in VisitAll(reg, aggregates, edges, processed, path)
    ensures edge in edges && Spells(reg, aggregates, edge.1, processed, path + [edge.0], nodes, labels, r)
    decreases reg.labels.Keys - Elements(processed), 1, |edges|
  {
    if r in Visit(reg, aggregates, edges[0].1, processed, path + [edges[0].0]) {
      edge := edges[0];
      nodes, labels := VisitSound(reg, aggregates, edge.1, processed, path + [edge.0], r);
    } else {
      edge, nodes, labels := VisitAllSound(reg, aggregates, edges[1..], processed, path, r);
    }
  }

  /** Every simple path is recorded. */
  lemma {:induction false} VisitComplete(reg: Registry, aggregates: Aggregates, t: TypeId, processed: seq<TypeId>,
                                         path: seq<string>, nodes: seq<TypeId>, labels: seq<string>, r: Record)
    requires Closed(reg, aggregates) && t in reg.labels
    requires Spells(reg, aggregates, t, processed, path, nodes, labels, r)
    ensures r in Visit(reg, aggregates, t, processed, path)
    decreases |nodes|
  {
    EdgeTargets(reg, aggregates, t);
    if |nodes| == 1 {
      assert path + labels == path;
    } else {
      var edge := (labels[0], nodes[1]);
      EdgesAre(reg, aggregates, t, edge);
      assert path + [labels[0]] + labels[1..] == path + labels;
      TailSpells(reg, aggregates, t, processed, path, nodes, labels, r);
      VisitComplete(reg, aggregates, nodes[1], processed + [t], path + [labels[0]], nodes[1..], labels[1..], r);
      InVisitAll(reg, aggregates, Edges(reg, aggregates, t), edge, processed + [t], path, r);
    }
  }

  lemma TailSpells(reg: Registry, aggregates: Aggregates, t: TypeId, processed: seq<TypeId>,
                   path: seq<string>, nodes: seq<TypeId>, labels: seq<string>, r: Record)
    requires Closed(reg, aggregates) && Spells(reg, aggregates, t, processed, path, nodes, labels, r) && |nodes| > 1
    ensures Spells(reg, aggregates, nodes[1], processed + [t], path + [labels[0]], nodes[1..], labels[1..], r)
  {
    assert path + [labels[0]] + labels[1..] == path + labels;
    hide SimplePath, PathString;
    assert forall i :: 0 <= i < |nodes[1..]| ==> nodes[1..][i] == nodes[i+1] && nodes[1..][i] != t;
  }

  lemma {:induction false} InVisitAll(reg: Registry, aggregates: Aggregates, edges: seq<Edge>, edge: Edge,
                                      processed: seq<TypeId>, path: seq<string>, r: Record)
    requires Closed(reg, aggregates) && Targets(reg, edges) && edge in edges
    requires r in Visit(reg, aggregates, edge.1, processed, path + [edge.0])
    ensures r in VisitAll(reg, aggregates, edges, processed, path)
    decreases |edges|
  {
    if edges[0] != edge {
      InVisitAll(reg, aggregates, edges[1..], edge, processed, path, r);
    }
  }

  ghost predicate IsSimplePathRecord(reg: Registry, aggregates: Aggregates, t: TypeId, r: Record)
    requires Closed(reg, aggregates)
  {
    exists nodes, labels :: SimplePath(reg, aggregates, nodes, labels)
      && nodes[0] == t && nodes[|nodes|-1] == r.0 && r.1 == PathString(labels)
  }

  /** From empty stacks the search records (type, path) exactly for the simple paths from the root. */
  lemma VisitIsSimplePaths(reg: Registry, aggregates: Aggregates, t: TypeId)
    requires Closed(reg, aggregates) && t in reg.labels
    ensures forall r :: r in Visit(reg, aggregates, t, [], []) <==> IsSimplePathRecord(reg, aggregates, t, r)
  {
    hide Visit, Leads, PathString;
    forall r ensures r in Visit(reg, aggregates, t, [], []) <==> IsSimplePathRecord(reg, aggregates, t, r) {
      if r in Visit(reg, aggregates, t, [], []) {
        var nodes, labels := VisitSound(reg, aggregates, t, [], [], r);
        assert [] + labels == labels;
      }
      if IsSimplePathRecord(reg, aggregates, t, r) {
        var nodes, labels :| SimplePath(reg, aggregates, nodes, labels)
          && nodes[0] == t && nodes[|nodes|-1] == r.0 && r.1 == PathString(labels);
        assert [] + labels == labels;
        VisitComplete(reg, aggregates, t, [], [], nodes, labels, r);
      }
    }
  }

  // ----- sorting the output and dropping duplicates

  predicate StringLess(a: string, b: string) {
    b != [] && (a == [] || a[0] < b[0] || (a[0] == b[0] && StringLess(a[1..], b[1..])))
  }

  /** The order of pairs: by type, then by string. */
  predicate Less(p: Record, q: Record) {
    p.0 < q.0 || (p.0 == q.0 && StringLess(p.1, q.1))
  }

  predicate StrictlySorted(s: seq<Record>) {
    forall i, j :: 0 <= i < j < |s| ==> Less(s[i], s[j])
  }

  lemma {:induction false} StringLessTransitive(a: string, b: string, c: string)
    requires StringLess(a, b) && StringLess(b, c)
    ensures StringLess(a, c)
    decreases |a|
  {
    if a != [] && a[0] == b[0] && b[0] == c[0] {
      StringLessTransitive(a[1..], b[1..], c[1..]);
    }
  }

  lemma {:induction false} StringLessTotal(a: string, b: string)
    ensures a == b || StringLess(a, b) || StringLess(b, a)
    decreases |a|
  {
    if a != [] && b != [] && a[0] == b[0] {
      StringLessTotal(a[1..], b[1..]);
      assert a == [a[0]] + a[1..] && b == [b[0]] + b[1..];
    }
  }

  lemma LessTransitive(p: Record, q: Record, r: Record)
    requires Less(p, q) && Less(q, r)
    ensures Less(p, r)
  {
    if p.0 == q.0 == r.0 {
      StringLessTransitive(p.1, q.1, r.1);
    }
  }

  /** `std::unique`: keeps one of each run of equal records. */
  function Unique(s: seq<Record>): seq<Record> {
    if |s| <= 1 then s
    else if s[0] == s[1] then Unique(s[1..])
    else [s[0]] + Unique(s[1..])
  }

  lemma LessIsOrder()
    ensures TotalOrder(Less)
  {
    forall p, q ensures p == q || Less(p, q) || Less(q, p) {
      StringLessTotal(p.1, q.1);
    }
    forall p, q, r | Less(p, q) && Less(q, r) ensures Less(p, r) {
      LessTransitive(p, q, r);
    }
  }

  lemma {:induction false} UniqueStrict(s: seq<Record>)
    requires InOrder(s, Less)
    ensures StrictlySorted(Unique(s)) && forall r :: r in Unique(s) <==> r in s
    decreases |s|
  {
    if |s| > 1 {
      UniqueStrict(s[1..]);
      assert s == [s[0]] + s[1..];
      if s[0] != s[1] {
        forall r | r in s[1..] ensures Less(s[0], r) {
          var j :| 1 <= j < |s| && s[j] == r;
          if j > 1 && s[1] != s[j] {
            LessTransitive(s[0], s[1], s[j]);
          }
        }
      }
    }
  }

  lemma SortedAndUnique(s: seq<Record>)
    ensures StrictlySorted(Unique(Sort(s, Less))) && forall r :: r in Unique(Sort(s, Less)) <==> r in s
  {
    LessIsOrder();
    SortSorts(s, Less);
    UniqueStrict(Sort(s, Less));
    forall r ensures r in Sort(s, Less) <==> r in s {
      assert r in multiset(Sort(s, Less)) <==> r in multiset(s);
    }
  }

  // ----- the object

  class StaticInformation {
    var output: seq<Record>
    var currentPath: seq<string>
    var alreadyProcessed: seq<TypeId>
    var aggregates: Aggregates

    constructor ()
      ensures output == [] && currentPath == [] && alreadyProcessed == [] && aggregates == []
    {
      output, currentPath, alreadyProcessed, aggregates := [], [], [], [];
    }

    /** Lines 138-148. */
    method GetCurrentPath() returns (path: string)
      ensures path == PathString(currentPath)
    {
      path := "";
      for i := 0 to |currentPath|
        invariant path == PathString(currentPath[..i])
      {
        assert currentPath[..i+1][..i] == currentPath[..i];
        path := path + "/" + currentPath[i];
      }
      assert currentPath[..|currentPath|] == currentPath;
    }

    /** Lines 157-168. */
    method HasAlreadyBeenProcessed(tid: TypeId) returns (b: bool)
      ensures b <==> tid in alreadyProcessed
    {
      for i := 0 to |alreadyProcessed|
        invariant tid !in alreadyProcessed[..i]
      {
        if alreadyProcessed[i] == tid {
          return true;
        }
      }
      return false;
    }

    /** The output is `before` followed by what the visits along `seen` from `tid` record. */
    ghost predicate Made(reg: Registry, tid: TypeId, before: seq<Record>, seen: seq<Edge>)
      requires Closed(reg, aggregates)
      reads this
    {
      Targets(reg, seen) && output == before + VisitAll(reg, aggregates, seen, alreadyProcessed + [tid], currentPath)
    }

    /** Lines 194-282: records the type unless it is on the path already, then follows its attributes,
        the types derived from it and its aggregations. Both stacks are as before on every return. */
    method DoGather(reg: Registry, tid: TypeId)
      requires Closed(reg, aggregates) && tid in reg.labels
      modifies this`output, this`currentPath, this`alreadyProcessed
      ensures currentPath == old(currentPath) && alreadyProcessed == old(alreadyProcessed)
      ensures output == old(output) + Visit(reg, aggregates, tid, alreadyProcessed, currentPath)
      decreases reg.labels.Keys - Elements(alreadyProcessed), 3
    {
      hide Visit, VisitAll, Closed, AttributeEdges, ChildEdges, AggregateEdges, PathString;
      var processed := HasAlreadyBeenProcessed(tid);
      if processed {
        VisitTwice(reg, aggregates, tid, alreadyProcessed, currentPath);
        return;
      }
      VisitUnfold(reg, aggregates, tid, alreadyProcessed, currentPath);
      var path := GetCurrentPath();
      output := output + [(tid, path)];
      GatherAttributes(reg, tid);
      GatherChildren(reg, tid);
      GatherAggregates(reg, tid);
    }

    /** Lines 203-229: pointers and containers among the attributes. */
    method GatherAttributes(reg: Registry, tid: TypeId)
      requires Closed(reg, aggregates) && tid in reg.labels && tid !in alreadyProcessed
      modifies this`output, this`currentPath, this`alreadyProcessed
      ensures currentPath == old(currentPath) && alreadyProcessed == old(alreadyProcessed)
      ensures Made(reg, tid, old(output), AttributeEdges(reg.attributes[tid]))
      decreases reg.labels.Keys - Elements(alreadyProcessed), 2
    {
      assert tid in reg.attributes && Made(reg, tid, output, []) && AttributeEdges([]) == [];
      hide *;
      var attributes := reg.attributes[tid];
      for i := 0 to |attributes|
        invariant currentPath == old(currentPath) && alreadyProcessed == old(alreadyProcessed)
        invariant Made(reg, tid, old(output), AttributeEdges(attributes[..i]))
      {
        AttributesUpTo(reg, aggregates, tid, i);
        GatherAttribute(reg, tid, attributes[i], old(output), AttributeEdges(attributes[..i]));
      }
      assert attributes[..|attributes|] == attributes;
    }

    /** The body of that loop. */
    method GatherAttribute(reg: Registry, tid: TypeId, attribute: Attribute,
                           ghost before: seq<Record>, ghost seen: seq<Edge>)
      requires Closed(reg, aggregates) && tid in reg.labels && tid !in alreadyProcessed && Made(reg, tid, before, seen)
      requires Targets(reg, AttributeEdge(attribute))
      modifies this`output, this`currentPath, this`alreadyProcessed
      ensures Made(reg, tid, before, seen + AttributeEdge(attribute))
      ensures currentPath == old(currentPath) && alreadyProcessed == old(alreadyProcessed)
      decreases reg.labels.Keys - Elements(alreadyProcessed), 1, 1
    {
      hide Made, Closed;
      match attribute
      case PointerAttribute(name, pointee) =>
        assert (name, pointee) in AttributeEdge(attribute);
        Descend(reg, tid, name, pointee, before, seen);
      case ContainerAttribute(name, item) =>
        assert (name + "/[i]", item) in AttributeEdge(attribute);
        Descend(reg, tid, name + "/[i]", item, before, seen);
      case PlainAttribute(_) =>
        assert seen + [] == seen;
    }

    /** Lines 230-245: the registered types derived from this one. */
    method GatherChildren(reg: Registry, tid: TypeId)
      requires Closed(reg, aggregates) && tid in reg.labels && tid !in alreadyProcessed
      modifies this`output, this`currentPath, this`alreadyProcessed
      ensures currentPath == old(currentPath) && alreadyProcessed == old(alreadyProcessed)
      ensures Made(reg, tid, old(output), ChildEdges(reg, reg.registered, tid))
      decreases reg.labels.Keys - Elements(alreadyProcessed), 2
    {
      assert Made(reg, tid, output, []) && ChildEdges(reg, [], tid) == [];
      hide *;
      for i := 0 to |reg.registered|
        invariant currentPath == old(currentPath) && alreadyProcessed == old(alreadyProcessed)
        invariant Elements(reg.registered[..i]) <= reg.labels.Keys
        invariant Made(reg, tid, old(output), ChildEdges(reg, reg.registered[..i], tid))
      {
        ChildrenUpTo(reg, aggregates, tid, i);
        var child := reg.registered[i];
        if (child, tid) in reg.childOf {
          Descend(reg, tid, reg.labels[child], child, old(output), ChildEdges(reg, reg.registered[..i], tid));
        }
      }
      assert reg.registered[..|reg.registered|] == reg.registered;
    }

    /** Lines 246-281: the types aggregated with this one. */
    method GatherAggregates(reg: Registry, tid: TypeId)
      requires Closed(reg, aggregates) && tid in reg.labels && tid !in alreadyProcessed
      modifies this`output, this`currentPath, this`alreadyProcessed
      ensures currentPath == old(currentPath) && alreadyProcessed == old(alreadyProcessed)
      ensures Made(reg, tid, old(output), AggregateEdges(reg, aggregates, tid))
      decreases reg.labels.Keys - Elements(alreadyProcessed), 2
    {
      assert Made(reg, tid, output, []) && AggregateEdges(reg, [], tid) == [];
      hide *;
      for i := 0 to |aggregates|
        invariant currentPath == old(currentPath) && alreadyProcessed == old(alreadyProcessed)
        invariant forall p :: p in aggregates[..i] ==> p.0 in reg.labels && p.1 in reg.labels
        invariant Made(reg, tid, old(output), AggregateEdges(reg, aggregates[..i], tid))
      {
        AggregatesUpTo(reg, aggregates, tid, i);
        var pair := aggregates[i];
        if pair.0 == tid || pair.1 == tid {
          var other := if pair.1 == tid then pair.0 else pair.1;
          Descend(reg, tid, reg.labels[other], other, old(output), AggregateEdges(reg, aggregates[..i], tid));
        }
      }
      assert aggregates[..|aggregates|] == aggregates;
    }

    /** Lines 185-191. From rest, the output becomes sorted and free of duplicates and gains exactly
        the simple paths from `tid`. */
    method Gather(reg: Registry, tid: TypeId)
      requires Closed(reg, aggregates) && tid in reg.labels && currentPath == [] && alreadyProcessed == []
      modifies this`output, this`currentPath, this`alreadyProcessed
      ensures currentPath == [] && alreadyProcessed == []
      ensures StrictlySorted(output)
      ensures forall r :: r in output <==> r in old(output) || IsSimplePathRecord(reg, aggregates, tid, r)
    {
      DoGather(reg, tid);
      assert forall r :: r in output <==> r in old(output) || r in Visit(reg, aggregates, tid, [], []);
      VisitIsSimplePaths(reg, aggregates, tid);
      SortedAndUnique(output);
      output := Unique(Sort(output, Less));
    }

    /** Pushes both stacks, visits the neighbour and pops them again, as each loop does. */
    method Descend(reg: Registry, tid: TypeId, name: string, target: TypeId,
                   ghost before: seq<Record>, ghost seen: seq<Edge>)
      requires Closed(reg, aggregates) && tid in reg.labels && target in reg.labels && tid !in alreadyProcessed
      requires Made(reg, tid, before, seen)
      modifies this`output, this`currentPath, this`alreadyProcessed
      ensures Made(reg, tid, before, seen + [(name, target)])
      ensures currentPath == old(currentPath) && alreadyProcessed == old(alreadyProcessed)
      decreases reg.labels.Keys - Elements(alreadyProcessed), 1, 0
    {
      hide Closed, Visit, VisitAll;
      assert tid in Elements(alreadyProcessed + [tid]);
      VisitOne(reg, aggregates, (name, target), alreadyProcessed + [tid], currentPath);
      VisitAllConcat(reg, aggregates, seen, [(name, target)], alreadyProcessed + [tid], currentPath);
      currentPath := currentPath + [name];
      alreadyProcessed := alreadyProcessed + [tid];
      DoGather(reg, target);
      alreadyProcessed := alreadyProcessed[..|alreadyProcessed|-1];
      currentPath := currentPath[..|currentPath|-1];
    }
  }

  // ----- the edges seen after one more round of each loop

  lemma AttributesUpTo(reg: Registry, aggregates: Aggregates, tid: TypeId, i: nat)
    requires Closed(reg, aggregates) && tid in reg.labels && i < |reg.attributes[tid]|
    ensures var attributes := reg.attributes[tid];
      && Targets(reg, AttributeEdge(attributes[i]))
      && AttributeEdges(attributes[..i+1]) == AttributeEdges(attributes[..i]) + AttributeEdge(attributes[i])
  {
    var attributes := reg.attributes[tid];
    assert attributes[i] in attributes;
    assert attributes[..i+1][..i] == attributes[..i];
  }

  lemma ChildrenUpTo(reg: Registry, aggregates: Aggregates, tid: TypeId, i: nat)
    requires Closed(reg, aggregates) && i < |reg.registered|
    ensures Elements(reg.registered[..i]) <= reg.labels.Keys && Elements(reg.registered[..i+1]) <= reg.labels.Keys
    ensures reg.registered[i] in reg.labels
    ensures var child := reg.registered[i];
      ChildEdges(reg, reg.registered[..i+1], tid) == ChildEdges(reg, reg.registered[..i], tid)
        + if (child, tid) in reg.childOf then [(reg.labels[child], child)] else []
    ensures (reg.registered[i], tid) !in reg.childOf ==>
      ChildEdges(reg, reg.registered[..i+1], tid) == ChildEdges(reg, reg.registered[..i], tid)
  {
    assert reg.registered[i] in reg.registered;
    assert reg.registered[..i+1][..i] == reg.registered[..i];
  }

  lemma AggregatesUpTo(reg: Registry, aggregates: Aggregates, tid: TypeId, i: nat)
    requires Closed(reg, aggregates) && i < |aggregates|
    ensures aggregates[i].0 in reg.labels && aggregates[i].1 in reg.labels
    ensures forall p :: p in aggregates[..i+1] ==> p.0 in reg.labels && p.1 in reg.labels
    ensures var pair := aggregates[i];
      var other := if pair.1 == tid then pair.0 else pair.1;
      AggregateEdges(reg, aggregates[..i+1], tid) == AggregateEdges(reg, aggregates[..i], tid)
        + if pair.0 == tid || pair.1 == tid then [(reg.labels[other], other)] else []
    ensures aggregates[i].0 != tid && aggregates[i].1 != tid ==>
      AggregateEdges(reg, aggregates[..i+1], tid) == AggregateEdges(reg, aggregates[..i], tid)
  {
    assert aggregates[i] in aggregates;
    assert aggregates[..i+1][..i] == aggregates[..i];
  }
}
