/** The in-memory graph store: a class whose fields are updated in place. */
module GraphStore {
  import opened Wrappers
  import opened Ontology
  import opened StoreModel
  import opened PlainWalk
  import opened Reachability

  lemma AfterNode(g: Graph, t: NodeType, id: Id, props: Props)
    ensures Accepts(PutNode(t, id, props)) <==> NodeAccepted(t, props)
    ensures After(g, PutNode(t, id, props)) ==
            if !NodeAccepted(t, props) then g
            else
              var existing := if id in g.nodes then g.nodes[id] else map[];
              g.(nodes := g.nodes[id := existing + (props + map[KId := Text(id), KNodeType := Tag(t)])])
  {
    hide NodeAccepted;
    var existing := if id in g.nodes then g.nodes[id] else map[];
    assert existing + props + Stub(id, t) == existing + (props + map[KId := Text(id), KNodeType := Tag(t)]);
  }

  lemma AfterEdge(g: Graph, e: Edge)
    ensures Accepts(PutEdge(e)) <==> EdgeAccepted(e.kind, e.srcType, e.dstType, e.props)
    ensures After(g, PutEdge(e)) ==
            if !EdgeAccepted(e.kind, e.srcType, e.dstType, e.props) then g
            else
              Graph(WithNode(WithNode(g.nodes, e.src, e.srcType), e.dst, e.dstType), g.edges + [e],
                    Indexed(Indexed(g.adj, e.src, |g.edges|), e.dst, |g.edges|))
  {
    hide EdgeAccepted, WithNode, Indexed;
  }

  lemma IndexIsScan(g: Graph, id: Id)
    requires Consistent(g)
    ensures (if id in g.adj then g.adj[id] else []) == Scan(g.edges, id)
    ensures forall k | 0 <= k < |Scan(g.edges, id)| :: Scan(g.edges, id)[k] < |g.edges|
  {
    assert Adjacent(g, id) == Scan(g.edges, id);
    ScanLists(g.edges, id);
  }

  lemma NeighborsUnfold(g: Graph, id: Id, kinds: seq<EdgeType>, direction: Direction)
    ensures forall k | 0 <= k < |Scan(g.edges, id)| :: Scan(g.edges, id)[k] < |g.edges|
    ensures Neighbors(g, id, kinds, direction) == Records(g, Scan(g.edges, id), id, kinds, direction)
  {
    ScanLists(g.edges, id);
    hide Records;
  }

  lemma NoRecords(g: Graph, id: Id, kinds: seq<EdgeType>, direction: Direction)
    ensures Records(g, [], id, kinds, direction) == []
  {
  }

  lemma RecordsStep(g: Graph, ixs: seq<nat>, k: nat, id: Id, kinds: seq<EdgeType>, direction: Direction)
    requires (forall j | 0 <= j < |ixs| :: ixs[j] < |g.edges|) && k < |ixs|
    ensures Records(g, ixs[..k + 1], id, kinds, direction) ==
            Records(g, ixs[..k], id, kinds, direction)
            + (if Selected(g.edges[ixs[k]], id, kinds, direction) then [RecordOf(g, g.edges[ixs[k]], id)] else [])
  {
    hide Selected, RecordOf;
    assert ixs[..k + 1][..k] == ixs[..k];
  }

  lemma RecordParts(g: Graph, e: Edge, id: Id)
    ensures var other := if e.src == id then e.dst else e.src;
            RecordOf(g, e, id) ==
            Record(e.kind, e.src == id, e.props, if other in g.nodes then g.nodes[other] else map[KId := Text(other)])
  {
  }

  class InMemoryGraphStore {
    var nodes: map<Id, Props>
    var edges: seq<Edge>
    var adj: map<Id, seq<nat>>

    function View(): Graph
      reads this
    {
      Graph(nodes, edges, adj)
    }

    ghost predicate Valid()
      reads this
    {
      Consistent(View())
    }

    constructor ()
      ensures Valid() && View() == EMPTY
    {
      nodes, edges, adj := map[], [], map[];
    }

    /** Validates, then merges the properties over whatever was stored; `false` is the ontology violation. */
    method UpsertNode(t: NodeType, id: Id, props: Props) returns (ok: bool)
      requires Valid()
      modifies this
      ensures Valid()
      ensures ok == Accepts(PutNode(t, id, props))
      ensures View() == After(old(View()), PutNode(t, id, props))
    {
      AfterConsistent(View(), PutNode(t, id, props));
      AfterNode(View(), t, id, props);
      hide Consistent, NodeAccepted, After;
      ok := NodeAccepted(t, props);
      if !ok { return; }
      var existing := if id in nodes then nodes[id] else map[];
      existing := existing + (props + map[KId := Text(id), KNodeType := Tag(t)]);
      nodes := nodes[id := existing];
    }

    method UpsertEdge(e: Edge) returns (ok: bool)
      requires Valid()
      modifies this
      ensures Valid()
      ensures ok == Accepts(PutEdge(e))
      ensures View() == After(old(View()), PutEdge(e))
    {
      AfterConsistent(View(), PutEdge(e));
      AfterEdge(View(), e);
      hide Consistent, EdgeAccepted, After, Accepts, WithNode, Indexed;
      ok := EdgeAccepted(e.kind, e.srcType, e.dstType, e.props);
      if !ok { return; }
      EnsureNode(e.src, e.srcType);
      EnsureNode(e.dst, e.dstType);
      var i := |edges|;
      edges := edges + [e];
      AddToIndex(e.src, i);
      AddToIndex(e.dst, i);
    }

    /** An edge may come before its endpoints; each then gets a stub. */
    method EnsureNode(id: Id, t: NodeType)
      modifies `nodes
      ensures nodes == WithNode(old(nodes), id, t)
    {
      if id !in nodes { nodes := nodes[id := Stub(id, t)]; }
    }

    method AddToIndex(id: Id, i: nat)
      modifies `adj
      ensures adj == Indexed(old(adj), id, i)
    {
      adj := adj[id := (if id in adj then adj[id] else []) + [i]];
    }

    method GetNode(id: Id) returns (r: Option<Props>)
      ensures r == if id in nodes then Some(nodes[id]) else None
    {
      r := if id in nodes then Some(nodes[id]) else None;
    }

    /** The index scan finds the oldest provenance edge whose target is a source span. */
    method GetSpanForNode(id: Id) returns (r: Option<Props>)
      requires Valid()
      ensures r == SpanOf(View(), id)
    {
      hide EdgesWellFormed, NodesCarryTheirId, Scan;
      var ixs := if id in adj then adj[id] else [];
      ghost var g := View();
      assert ixs == Scan(edges, id) by { assert ixs == Adjacent(g, id); }
      assert forall k | 0 <= k < |ixs| :: ixs[k] < |edges| by { ScanLists(edges, id); }
      for k := 0 to |ixs|
        invariant forall j | 0 <= j < k :: !IsProvenance(g, ixs[j], id)
      {
        var e := edges[ixs[k]];
        if e.kind != NodeDerivedFromSource || e.src != id { continue; }
        if e.dst in nodes && IsSpanNode(nodes[e.dst]) {
          FirstInIndex(g, id, ixs, k);
          return Some(nodes[e.dst]);
        }
      }
      NoneInIndex(g, id, ixs);
      r := None;
    }

    method NeighborRecords(id: Id, kinds: seq<EdgeType>, direction: Direction) returns (out: seq<Record>)
      requires Valid()
      ensures out == Neighbors(View(), id, kinds, direction)
    {
      var ixs := if id in adj then adj[id] else [];
      ghost var g := View();
      IndexIsScan(g, id);
      NeighborsUnfold(g, id, kinds, direction);
      hide Consistent, Scan, Adjacent, RecordOf, Records, Neighbors;
      out := [];
      NoRecords(g, id, kinds, direction);
      for k := 0 to |ixs|
        invariant out == Records(g, ixs[..k], id, kinds, direction)
      {
        RecordsStep(g, ixs, k, id, kinds, direction);
        var e := edges[ixs[k]];
        RecordParts(g, e, id);
        if kinds != [] && e.kind !in kinds { continue; }
        if direction == Outgoing && e.src != id { continue; }
        if direction == Incoming && e.dst != id { continue; }
        var other := if e.src == id then e.dst else e.src;
        var node := if other in nodes then nodes[other] else map[KId := Text(other)];
        out := out + [Record(e.kind, e.src == id, e.props, node)];
      }
      assert ixs[..|ixs|] == ixs;
    }

    /** First in, first out: a node may be queued many times, and is checked when it is taken out. */
    method Neighborhood(seeds: seq<Id>, maxHops: nat, maxNodes: nat,
                        authorityCeiling: Option<int>, matterScope: Option<string>)
      returns (visited: map<Id, Props>, found: seq<Edge>, ghost depth: map<Id, nat>)
      requires Valid()
      ensures BoundedWalk(PlainHops(View(), authorityCeiling, matterScope),
                          PlainStart(View(), authorityCeiling, matterScope, seeds), maxHops, maxNodes, depth)
      ensures visited.Keys == depth.Keys && |visited| <= maxNodes
      ensures CopiedFrom(visited, nodes)
      ensures AllShown(found, edges, depth, maxHops)
    {
      hide Consistent, Queueing, PlainHops, Visible, Reach, Touches, AllShown, Expanded, BoundedWalk, CopiedFrom;
      ghost var g, succ, start := View(), PlainHops(View(), authorityCeiling, matterScope),
                                  PlainStart(View(), authorityCeiling, matterScope, seeds);
      ghost var ok := set id | id in nodes && Visible(nodes[id], authorityCeiling, matterScope);
      var queue := QueueSeeds(seeds);
      SeededQueueing(g, authorityCeiling, matterScope, seeds, maxHops, ok);
      visited, found, depth := map[], [], map[];
      ghost var level := 0;
      NothingShown(edges, maxHops);
      NothingCopied(nodes);
      while queue != [] && |visited| < maxNodes
        invariant visited.Keys == depth.Keys && |visited| <= maxNodes
        invariant CopiedFrom(visited, nodes)
        invariant forall k | 0 <= k < |queue| :: queue[k].id in nodes
        invariant Queueing(succ, start, maxHops, ok, depth, queue, level)
        invariant AllShown(found, edges, depth, maxHops)
        decreases nodes.Keys - visited.Keys, |queue|
      {
        var head := queue[0];
        var id := head.id;
        HeadLevel(succ, start, maxHops, ok, depth, queue, level);
        level := head.depth;
        ghost var before := queue;
        queue := queue[1..];
        if id in visited || !Visible(nodes[id], authorityCeiling, matterScope) {
          PlainHopsVisible(g, authorityCeiling, matterScope, seeds, ok);
          DropHead(succ, start, maxHops, ok, depth, before, level);
          continue;
        }
        assert id in nodes.Keys - visited.Keys;
        CopyMore(visited, nodes, id);
        visited := visited[id := nodes[id]];
        if head.depth >= maxHops {
          assert queue == before[1..] + [];
          KeepHead(succ, start, maxHops, ok, depth, before, level, []);
          ShownMore(found, [], edges, depth, maxHops, id, level);
          assert found + [] == found;
          depth := depth[id := level];
          continue;
        }
        var more, found' := Fan(id, head.depth, visited, authorityCeiling, matterScope);
        KeepHead(succ, start, maxHops, ok, depth, before, level, more);
        ShownMore(found, found', edges, depth, maxHops, id, level);
        queue := queue + more;
        found := found + found';
        depth := depth[id := level];
      }
      assert |visited| == |visited.Keys| == |depth.Keys| == |depth|;
      QueueingIsBounded(succ, start, maxHops, maxNodes, ok, depth, queue, level);
    }

    method QueueSeeds(seeds: seq<Id>) returns (queue: seq<Queued>)
      ensures queue == Seeded(View(), seeds)
    {
      queue := [];
      for k := 0 to |seeds|
        invariant queue == Seeded(View(), seeds[..k])
      {
        assert seeds[..k + 1][..k] == seeds[..k];
        if seeds[k] in nodes { queue := queue + [Queued(seeds[k], 0)]; }
      }
      assert seeds[..|seeds|] == seeds;
    }

    /** Queues the far end of every edge of `id` that has not been kept yet. */
    method Fan(id: Id, d: nat, visited: map<Id, Props>, ghost ceiling: Option<int>, ghost scope: Option<string>)
      returns (more: seq<Queued>, found: seq<Edge>)
      requires Valid()
      ensures forall m | m in more :: m.depth == d + 1 && m.id in nodes
      ensures forall m | m in more && Visible(nodes[m.id], ceiling, scope) ::
              m.id in PlainHops(View(), ceiling, scope)(id)
      ensures forall y | y in PlainHops(View(), ceiling, scope)(id) :: y in visited || Queued(y, d + 1) in more
      ensures forall e :: e in found <==> e in edges && Touches(e, id)
    {
      hide NodesCarryTheirId, Scan, EdgeAccepted, Visible;
      var ixs := if id in adj then adj[id] else [];
      ghost var g := View();
      assert ixs == Scan(edges, id) by { assert ixs == Adjacent(g, id); }
      assert ListsIncident(edges, id, ixs) by { ScanLists(edges, id); }
      more, found := [], [];
      for k := 0 to |ixs|
        invariant FanIs(g.edges, ixs[..k], id, d, visited.Keys, more, found)
      {
        var e := edges[ixs[k]];
        var other := if e.src == id then e.dst else e.src;
        FanGrows(g.edges, ixs, k, id, d, visited.Keys, more, found);
        if other !in visited { more := more + [Queued(other, d + 1)]; }
        found := found + [e];
      }
      assert ixs[..|ixs|] == ixs;
      FanDone(g, ixs, id, d, visited.Keys, more, found, ceiling, scope);
    }
  }

  lemma FirstInIndex(g: Graph, id: Id, ixs: seq<nat>, k: nat)
    requires ixs == Scan(g.edges, id) && k < |ixs|
    requires IsProvenance(g, ixs[k], id) && forall j | 0 <= j < k :: !IsProvenance(g, ixs[j], id)
    ensures SpanOf(g, id) == Some(g.nodes[g.edges[ixs[k]].dst])
  {
    ScanLists(g.edges, id);
    var first := FirstProvenance(g, id, 0);
    assert first.Some? && Touches(g.edges[first.value], id);
    var m :| 0 <= m < |ixs| && ixs[m] == first.value;
    assert k <= m;
  }

  lemma NoneInIndex(g: Graph, id: Id, ixs: seq<nat>)
    requires ixs == Scan(g.edges, id)
    requires forall j | 0 <= j < |ixs| :: !IsProvenance(g, ixs[j], id)
    ensures SpanOf(g, id) == None
  {
    ScanLists(g.edges, id);
    var first := FirstProvenance(g, id, 0);
    if first.Some? {
      assert Touches(g.edges[first.value], id);
    }
  }
}
