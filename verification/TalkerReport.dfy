/** The graph that is returned: filtered and ranked edges, and their endpoints (backend/network.py). */
module TalkerReport {
  import opened Prelude
  import opened Counters
  import opened TalkerGraph
  import opened TalkerEdges
  import Seqs

  datatype Edge = Edge(a: int, b: int, weight: nat, isPrivate: bool, tgs: set<int>)

  datatype Node = Node(id: int, totalCalls: nat, lastSeen: Option<string>, hasGps: bool)

  ghost function DirectWeight(direct: map<Pair, nat>, a: int, b: int): nat {
    Get(direct, (a, b)) + if a != b then Get(direct, (b, a)) else 0
  }

  /** What an edge of the graph is, in terms of the aggregated counts. */
  ghost predicate IsEdge(acc: Acc, minWeight: int, e: Edge) {
    && minWeight <= e.weight
    && if e.isPrivate then
         && e.a <= e.b && ((e.a, e.b) in acc.direct || (e.b, e.a) in acc.direct)
         && e.weight == DirectWeight(acc.direct, e.a, e.b) && e.tgs == {}
       else
         && e.a < e.b && e.tgs == SharedTgs(acc.keyups, e.a, e.b) && e.tgs != {}
         && e.weight == SumMin(acc.keyups, e.tgs, e.a, e.b)
  }

  predicate NoDuplicates<T(==)>(s: seq<T>) {
    forall i, j | 0 <= i < j < |s| :: s[i] != s[j]
  }

  predicate Ranked(edges: seq<Edge>) {
    forall i, j | 0 <= i < j < |edges| :: edges[j].weight <= edges[i].weight
  }

  /** The best `limit` edges, or all of them. */
  ghost predicate TopEdges(acc: Acc, minWeight: int, limit: Option<nat>, edges: seq<Edge>) {
    && NoDuplicates(edges) && Ranked(edges)
    && (forall e | e in edges :: IsEdge(acc, minWeight, e))
    && (limit.Some? ==> |edges| <= limit.value)
    && (forall e | IsEdge(acc, minWeight, e) && e !in edges ::
          limit.Some? && |edges| == limit.value && forall kept | kept in edges :: e.weight <= kept.weight)
  }

  predicate Endpoint(edges: seq<Edge>, id: int) {
    exists e | e in edges :: e.a == id || e.b == id
  }

  ghost predicate NodesOf(acc: Acc, gps: set<int>, edges: seq<Edge>, nodes: seq<Node>) {
    && (forall i, j | 0 <= i < j < |nodes| :: nodes[i].id < nodes[j].id)
    && (forall n | n in nodes ::
          && Endpoint(edges, n.id)
          && n.totalCalls == Get(acc.calls, n.id)
          && n.lastSeen == (if n.id in acc.seen then Some(acc.seen[n.id]) else None)
          && n.hasGps == (n.id in gps))
    && (forall id | Endpoint(edges, id) :: exists n :: n in nodes && n.id == id)
  }

  /** Nodes are exactly the endpoints of the surviving edges, and those are the best ones. */
  method ComputeTalkerPairs(groups: seq<Group>, gps: set<int>, minWeight: int, limit: Option<nat>)
    returns (nodes: seq<Node>, edges: seq<Edge>)
    ensures TopEdges(OfGroups(groups), minWeight, limit, edges)
    ensures NodesOf(OfGroups(groups), gps, edges, nodes)
  {
    var acc := Aggregate(groups);
    var weights, shared := GroupWeights(acc.keyups);
    var directWeights := PrivateWeights(acc.direct);
    var all := CollectEdges(acc, weights, shared, directWeights, minWeight);
    var ranked := SortByWeight(all);
    edges := ranked;
    if limit.Some? && limit.value < |ranked| {
      edges := ranked[..limit.value];
      TakeTop(acc, minWeight, ranked, limit.value);
    }
    nodes := EndpointsOf(acc, gps, edges);
  }

  /** The aggregation loop. */
  method Aggregate(groups: seq<Group>) returns (acc: Acc)
    ensures acc == OfGroups(groups)
  {
    acc := NOTHING;
    Seqs.Whole(groups);
    for n := 0 to |groups|
      invariant acc == OfGroups(groups[..n])
    {
      Seqs.TakeSnoc(groups, n);
      acc := Add(acc, groups[n].key, groups[n].count, groups[n].maxTs);
    }
  }

  lemma TakeTop(acc: Acc, minWeight: int, ranked: seq<Edge>, n: nat)
    requires TopEdges(acc, minWeight, None, ranked) && n < |ranked|
    ensures TopEdges(acc, minWeight, Some(n), ranked[..n])
  {
    var top := ranked[..n];
    forall e | IsEdge(acc, minWeight, e) && e !in top
      ensures forall kept | kept in top :: e.weight <= kept.weight
    {
      assert e in ranked;
      var j :| 0 <= j < |ranked| && ranked[j] == e;
      assert forall i | 0 <= i < n :: top[i] == ranked[i] && top[i] in top;
    }
  }

  method CollectEdges(ghost acc: Acc, weights: Weights, shared: Tables, directWeights: Weights, minWeight: int)
    returns (edges: seq<Edge>)
    requires Weighed(acc.keyups, acc.keyups.Keys, weights, shared)
    requires Collapsed(acc.direct, acc.direct.Keys, directWeights)
    ensures NoDuplicates(edges)
    ensures forall e :: e in edges <==> IsEdge(acc, minWeight, e)
  {
    var talk := GroupEdges(weights, shared, minWeight);
    var direct := DirectEdges(directWeights, minWeight);
    edges := talk + direct;
    forall e ensures e in edges <==> IsEdge(acc, minWeight, e) {
      if e.isPrivate {
        PrivateEdgeIsEdge(acc, directWeights, minWeight, e);
      } else {
        GroupEdgeIsEdge(acc, weights, shared, minWeight, e);
      }
    }
    forall i, j | 0 <= i < j < |edges| ensures edges[i] != edges[j] {
      if i < |talk| <= j {
        assert edges[i] in talk && edges[j] in direct;
      }
    }
  }

  predicate FromGroup(weights: Weights, shared: Tables, minWeight: int, e: Edge) {
    !e.isPrivate && (e.a, e.b) in weights && e.weight == weights[(e.a, e.b)] && minWeight <= e.weight
    && e.tgs == Tgs(shared, (e.a, e.b))
  }

  predicate FromDirect(weights: Weights, minWeight: int, e: Edge) {
    e.isPrivate && (e.a, e.b) in weights && e.weight == weights[(e.a, e.b)] && minWeight <= e.weight && e.tgs == {}
  }

  lemma GroupEdgeIsEdge(acc: Acc, weights: Weights, shared: Tables, minWeight: int, e: Edge)
    requires Weighed(acc.keyups, acc.keyups.Keys, weights, shared) && !e.isPrivate
    ensures FromGroup(weights, shared, minWeight, e) <==> IsEdge(acc, minWeight, e)
  {
    var p := (e.a, e.b);
    var tgs := SharedTgs(acc.keyups, p.0, p.1);
    assert tgs * acc.keyups.Keys == tgs;
    assert p in weights <==> p.0 < p.1 && tgs != {};
  }

  lemma PrivateEdgeIsEdge(acc: Acc, weights: Weights, minWeight: int, e: Edge)
    requires Collapsed(acc.direct, acc.direct.Keys, weights) && e.isPrivate
    ensures FromDirect(weights, minWeight, e) <==> IsEdge(acc, minWeight, e)
  {
    var p := (e.a, e.b);
    assert p in weights <==> p.0 <= p.1 && (p in acc.direct || (p.1, p.0) in acc.direct);
  }

  method GroupEdges(weights: Weights, shared: Tables, minWeight: int) returns (edges: seq<Edge>)
    requires weights.Keys == shared.Keys
    ensures NoDuplicates(edges)
    ensures forall e :: e in edges <==> FromGroup(weights, shared, minWeight, e)
  {
    edges := [];
    var rest := weights.Keys;
    while rest != {}
      invariant rest <= weights.Keys && NoDuplicates(edges)
      invariant forall e :: e in edges <==> FromGroup(weights, shared, minWeight, e) && (e.a, e.b) !in rest
      decreases |rest|
    {
      var p := Seqs.Pick(rest);
      rest := rest - {p};
      if minWeight <= weights[p] {
        edges := edges + [Edge(p.0, p.1, weights[p], false, shared[p])];
      }
    }
  }

  method DirectEdges(weights: Weights, minWeight: int) returns (edges: seq<Edge>)
    ensures NoDuplicates(edges)
    ensures forall e :: e in edges <==> FromDirect(weights, minWeight, e)
  {
    edges := [];
    var rest := weights.Keys;
    while rest != {}
      invariant rest <= weights.Keys && NoDuplicates(edges)
      invariant forall e :: e in edges <==> FromDirect(weights, minWeight, e) && (e.a, e.b) !in rest
      decreases |rest|
    {
      var p := Seqs.Pick(rest);
      rest := rest - {p};
      if minWeight <= weights[p] {
        edges := edges + [Edge(p.0, p.1, weights[p], true, {})];
      }
    }
  }

  /** list.sort by weight, heaviest first. */
  method SortByWeight(edges: seq<Edge>) returns (sorted: seq<Edge>)
    ensures multiset(sorted) == multiset(edges) && Ranked(sorted)
    ensures NoDuplicates(edges) ==> NoDuplicates(sorted)
    ensures forall e :: e in sorted <==> e in edges
  {
    sorted := [];
    Seqs.Whole(edges);
    for n := 0 to |edges|
      invariant multiset(sorted) == multiset(edges[..n]) && Ranked(sorted)
    {
      Seqs.TakeSnoc(edges, n);
      sorted := InsertByWeight(sorted, edges[n]);
    }
    assert forall e :: e in sorted <==> e in multiset(sorted);
    assert forall e :: e in edges <==> e in multiset(edges);
    if NoDuplicates(edges) {
      DistinctByMultiset(edges, sorted);
    }
  }

  method InsertByWeight(sorted: seq<Edge>, e: Edge) returns (r: seq<Edge>)
    requires Ranked(sorted)
    ensures multiset(r) == multiset(sorted) + multiset{e} && Ranked(r)
  {
    var i := 0;
    while i < |sorted| && e.weight <= sorted[i].weight
      invariant 0 <= i <= |sorted|
      invariant forall k | 0 <= k < i :: e.weight <= sorted[k].weight
    {
      i := i + 1;
    }
    r := sorted[..i] + [e] + sorted[i..];
    InsertKeepsRank(sorted, i, e);
    InsertAddsOne(sorted, i, e);
  }

  lemma InsertAddsOne(sorted: seq<Edge>, i: nat, e: Edge)
    requires i <= |sorted|
    ensures multiset(sorted[..i] + [e] + sorted[i..]) == multiset(sorted) + multiset{e}
  {
    assert sorted == sorted[..i] + sorted[i..];
  }

  lemma InsertKeepsRank(sorted: seq<Edge>, i: nat, e: Edge)
    requires Ranked(sorted) && i <= |sorted|
    requires forall k | 0 <= k < i :: e.weight <= sorted[k].weight
    requires i < |sorted| ==> sorted[i].weight < e.weight
    ensures Ranked(sorted[..i] + [e] + sorted[i..])
  {
    var r := sorted[..i] + [e] + sorted[i..];
    forall j, k | 0 <= j < k < |r| ensures r[k].weight <= r[j].weight {
      assert r[j] == if j < i then sorted[j] else if j == i then e else sorted[j - 1];
      assert r[k] == if k < i then sorted[k] else if k == i then e else sorted[k - 1];
    }
  }

  lemma DistinctByMultiset(a: seq<Edge>, b: seq<Edge>)
    requires NoDuplicates(a) && multiset(a) == multiset(b)
    ensures NoDuplicates(b)
  {
    forall i, j | 0 <= i < j < |b| ensures b[i] != b[j] {
      if b[i] == b[j] {
        assert b == b[..j] + b[j..] && b[i] in b[..j] && b[j] in b[j..];
        assert multiset(b)[b[i]] >= 2;
        AtMostOnce(a, b[i]);
      }
    }
  }

  lemma {:induction false} AtMostOnce(a: seq<Edge>, e: Edge)
    requires NoDuplicates(a)
    ensures multiset(a)[e] <= 1
  {
    if a == [] {
    } else {
      var front, last := a[..|a| - 1], a[|a| - 1];
      assert a == front + [last];
      AtMostOnce(front, e);
      if e == last {
        assert e !in front;
        assert e !in multiset(front);
      }
    }
  }

  method EndpointsOf(acc: Acc, gps: set<int>, edges: seq<Edge>) returns (nodes: seq<Node>)
    ensures NodesOf(acc, gps, edges, nodes)
  {
    var ids := SurvivingIds(edges);
    nodes := [];
    while ids != {}
      invariant Listed(acc, gps, edges, ids, nodes)
      decreases |ids|
    {
      var id := Smallest(ids);
      var node := NodeOf(acc, gps, id);
      ListedNext(acc, gps, edges, ids, nodes, id);
      nodes := nodes + [node];
      ids := ids - {id};
    }
  }

  function NodeOf(acc: Acc, gps: set<int>, id: int): Node {
    Node(id, Get(acc.calls, id), if id in acc.seen then Some(acc.seen[id]) else None, id in gps)
  }

  /** The nodes of all endpoints but `ids`, which come later. */
  ghost predicate Listed(acc: Acc, gps: set<int>, edges: seq<Edge>, ids: set<int>, nodes: seq<Node>) {
    && (forall id | id in ids :: Endpoint(edges, id))
    && (forall i, id | 0 <= i < |nodes| && id in ids :: nodes[i].id < id)
    && (forall i, j | 0 <= i < j < |nodes| :: nodes[i].id < nodes[j].id)
    && (forall i | 0 <= i < |nodes| :: Endpoint(edges, nodes[i].id) && nodes[i] == NodeOf(acc, gps, nodes[i].id))
    && (forall id | Endpoint(edges, id) && id !in ids :: NodeOf(acc, gps, id) in nodes)
  }

  lemma ListedNext(acc: Acc, gps: set<int>, edges: seq<Edge>, ids: set<int>, nodes: seq<Node>, id: int)
    requires Listed(acc, gps, edges, ids, nodes) && id in ids && forall other | other in ids :: id <= other
    ensures Listed(acc, gps, edges, ids - {id}, nodes + [NodeOf(acc, gps, id)])
  {
    var more := nodes + [NodeOf(acc, gps, id)];
    assert more[|nodes|] == NodeOf(acc, gps, id);
    assert forall n | n in nodes :: n in more;
  }

  method SurvivingIds(edges: seq<Edge>) returns (ids: set<int>)
    ensures forall id :: id in ids <==> Endpoint(edges, id)
  {
    ids := {};
    Seqs.Whole(edges);
    for n := 0 to |edges|
      invariant forall id :: id in ids <==> Endpoint(edges[..n], id)
    {
      Seqs.TakeSnoc(edges, n);
      ids := ids + {edges[n].a, edges[n].b};
      assert forall e :: e in edges[..n + 1] <==> e in edges[..n] || e == edges[n];
    }
  }

  method Smallest(ids: set<int>) returns (least: int)
    requires ids != {}
    ensures least in ids && forall id | id in ids :: least <= id
  {
    least := Seqs.Pick(ids);
    var rest := ids;
    while rest != {}
      invariant least in ids && rest <= ids
      invariant forall id | id in ids && id !in rest :: least <= id
      decreases |rest|
    {
      var id := Seqs.Pick(rest);
      rest := rest - {id};
      if id < least {
        least := id;
      }
    }
  }

  /** The graph from the grouped rows satisfies, edge for edge and node for node, what the row-by-row
      computation defines. */
  lemma GraphIsRowByRowGraph(rows: seq<Row>, groups: seq<Group>, gps: set<int>, minWeight: int,
                             limit: Option<nat>, nodes: seq<Node>, edges: seq<Edge>)
    requires Grouping(rows, groups)
    ensures TopEdges(OfGroups(groups), minWeight, limit, edges) <==> TopEdges(OfRows(rows), minWeight, limit, edges)
    ensures NodesOf(OfGroups(groups), gps, edges, nodes) <==> NodesOf(OfRows(rows), gps, edges, nodes)
  {
    GroupedEqualsRowByRow(rows, groups);
  }
}
