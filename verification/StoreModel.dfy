/**
 * The contents of the in-memory graph store as a value: nodes, an append-only edge list,
 * and the adjacency index kept beside it.
 */
module StoreModel {
  import opened Wrappers
  import opened Ontology

  datatype Edge = Edge(
    kind: EdgeType, src: Id, dst: Id, srcType: NodeType, dstType: NodeType, props: Props)

  datatype Graph = Graph(nodes: map<Id, Props>, edges: seq<Edge>, adj: map<Id, seq<nat>>)

  const EMPTY := Graph(map[], [], map[])

  /** The index entries one edge contributes for `id`: a self-loop is listed twice. */
  function Incidence(e: Edge, i: nat, id: Id): seq<nat> {
    (if e.src == id then [i] else []) + (if e.dst == id then [i] else [])
  }

  /** What the index must say about `id`: a scan of the whole edge list. */
  function Scan(edges: seq<Edge>, id: Id): seq<nat> {
    if edges == [] then []
    else
      var n := |edges| - 1;
      Scan(edges[..n], id) + Incidence(edges[n], n, id)
  }

  function Adjacent(g: Graph, id: Id): seq<nat> {
    if id in g.adj then g.adj[id] else []
  }

  ghost predicate IndexAgrees(g: Graph) {
    forall id :: Adjacent(g, id) == Scan(g.edges, id)
  }

  ghost predicate EdgesWellFormed(g: Graph) {
    forall e | e in g.edges ::
      e.src in g.nodes && e.dst in g.nodes && EdgeAccepted(e.kind, e.srcType, e.dstType, e.props)
  }

  ghost predicate NodesCarryTheirId(g: Graph) {
    forall id | id in g.nodes :: KId in g.nodes[id] && g.nodes[id][KId] == Text(id)
  }

  ghost predicate Consistent(g: Graph) {
    IndexAgrees(g) && EdgesWellFormed(g) && NodesCarryTheirId(g)
  }

  // ---------------------------------------------------------------------------
  // Writes
  // ---------------------------------------------------------------------------

  datatype StoreOp =
    | PutNode(t: NodeType, id: Id, props: Props)
    | PutEdge(edge: Edge)

  predicate Accepts(op: StoreOp) {
    match op
    case PutNode(t, _, props) => NodeAccepted(t, props)
    case PutEdge(e) => EdgeAccepted(e.kind, e.srcType, e.dstType, e.props)
  }

  function Stub(id: Id, t: NodeType): Props {
    map[KId := Text(id), KNodeType := Tag(t)]
  }

  function WithNode(nodes: map<Id, Props>, id: Id, t: NodeType): map<Id, Props> {
    if id in nodes then nodes else nodes[id := Stub(id, t)]
  }

  function Indexed(adj: map<Id, seq<nat>>, id: Id, i: nat): map<Id, seq<nat>> {
    adj[id := (if id in adj then adj[id] else []) + [i]]
  }

  /** The store after a write; a rejected write leaves it as it was. */
  function After(g: Graph, op: StoreOp): Graph {
    if !Accepts(op) then g
    else match op
      case PutNode(t, id, props) =>
        var existing := if id in g.nodes then g.nodes[id] else map[];
        g.(nodes := g.nodes[id := existing + props + Stub(id, t)])
      case PutEdge(e) =>
        Graph(WithNode(WithNode(g.nodes, e.src, e.srcType), e.dst, e.dstType),
              g.edges + [e],
              Indexed(Indexed(g.adj, e.src, |g.edges|), e.dst, |g.edges|))
  }

  function Run(g: Graph, ops: seq<StoreOp>): Graph
    decreases |ops|
  {
    if ops == [] then g else Run(After(g, ops[0]), ops[1..])
  }

  /** The later store holds every node and, as a prefix, every edge of the earlier one. */
  ghost predicate Extends(later: Graph, earlier: Graph) {
    earlier.nodes.Keys <= later.nodes.Keys && earlier.edges <= later.edges
  }

  lemma ScanAppend(edges: seq<Edge>, e: Edge, id: Id)
    ensures Scan(edges + [e], id) == Scan(edges, id) + Incidence(e, |edges|, id)
  {
    assert (edges + [e])[..|edges|] == edges;
  }

  lemma IndexStaysRight(g: Graph, op: StoreOp)
    requires IndexAgrees(g)
    ensures IndexAgrees(After(g, op))
  {
    var g' := After(g, op);
    forall id ensures Adjacent(g', id) == Scan(g'.edges, id) {
      assert Adjacent(g, id) == Scan(g.edges, id);
      if Accepts(op) && op.PutEdge? {
        ScanAppend(g.edges, op.edge, id);
      }
    }
  }

  lemma EdgesStayWellFormed(g: Graph, op: StoreOp)
    requires EdgesWellFormed(g)
    ensures EdgesWellFormed(After(g, op))
  {
    hide EdgeAccepted, NodeAccepted, Stub, Indexed;
    var g' := After(g, op);
    forall e | e in g'.edges
      ensures e.src in g'.nodes && e.dst in g'.nodes && EdgeAccepted(e.kind, e.srcType, e.dstType, e.props)
    {
      assert e in g.edges || op == PutEdge(e);
    }
  }

  lemma NodesKeepTheirId(g: Graph, op: StoreOp)
    requires NodesCarryTheirId(g)
    ensures NodesCarryTheirId(After(g, op)) && Extends(After(g, op), g)
  {
    hide EdgeAccepted, NodeAccepted, Indexed;
  }

  lemma AfterConsistent(g: Graph, op: StoreOp)
    requires Consistent(g)
    ensures Consistent(After(g, op)) && Extends(After(g, op), g)
  {
    hide After, IndexAgrees, EdgesWellFormed, NodesCarryTheirId, Extends;
    IndexStaysRight(g, op);
    EdgesStayWellFormed(g, op);
    NodesKeepTheirId(g, op);
  }

  /** Every store reachable by writes is consistent, and writes never remove anything. */
  lemma {:induction false} RunConsistent(g: Graph, ops: seq<StoreOp>)
    requires Consistent(g)
    ensures Consistent(Run(g, ops)) && Extends(Run(g, ops), g)
    decreases |ops|
  {
    if ops == [] {
    } else {
      AfterConsistent(g, ops[0]);
      RunConsistent(After(g, ops[0]), ops[1..]);
    }
  }

  lemma ReachableConsistent(ops: seq<StoreOp>)
    ensures Consistent(Run(EMPTY, ops))
  {
    RunConsistent(EMPTY, ops);
  }

  /**
   * An accepted node write, property by property: what is given replaces what was there, what is not given stays,
   * the id and the type are the write's own, and nothing else in the store changes.
   */
  lemma NodeWriteTells(g: Graph, t: NodeType, id: Id, props: Props, k: Key, x: Id)
    requires NodeAccepted(t, props)
    ensures var g' := After(g, PutNode(t, id, props));
            && id in g'.nodes && g'.edges == g.edges && g'.adj == g.adj
            && var was, node := if id in g.nodes then g.nodes[id] else map[], g'.nodes[id];
            && KId in node && node[KId] == Text(id) && KNodeType in node && node[KNodeType] == Tag(t)
            && (k != KId && k != KNodeType && k in props ==> k in node && node[k] == props[k])
            && (k != KId && k != KNodeType && k !in props && k in was ==> k in node && node[k] == was[k])
            && (k in node ==> k == KId || k == KNodeType || k in props || k in was)
            && (x != id ==> (x in g'.nodes <==> x in g.nodes) && (x in g.nodes ==> g'.nodes[x] == g.nodes[x]))
  {
    hide NodeAccepted, EdgeAccepted, Indexed, WithNode;
  }

  /** An accepted edge write adds the edge, and bare nodes for the ends that are missing; no node changes. */
  lemma EdgeWriteTells(g: Graph, e: Edge, x: Id)
    requires EdgeAccepted(e.kind, e.srcType, e.dstType, e.props)
    ensures var g' := After(g, PutEdge(e));
            && g'.edges == g.edges + [e]
            && (x in g'.nodes <==> x in g.nodes || x == e.src || x == e.dst)
            && (x in g.nodes ==> g'.nodes[x] == g.nodes[x])
            && (x == e.src && x !in g.nodes ==> g'.nodes[x] == map[KId := Text(x), KNodeType := Tag(e.srcType)])
            && (x == e.dst && x != e.src && x !in g.nodes ==>
                  g'.nodes[x] == map[KId := Text(x), KNodeType := Tag(e.dstType)])
  {
    hide NodeAccepted, EdgeAccepted, Indexed;
  }

  // ---------------------------------------------------------------------------
  // Reads
  // ---------------------------------------------------------------------------

  predicate Touches(e: Edge, id: Id) {
    e.src == id || e.dst == id
  }

  function OtherEnd(e: Edge, id: Id): Id {
    if e.src == id then e.dst else e.src
  }

  /** `ixs` lists exactly the edges that touch the node, oldest first. */
  ghost predicate ListsIncident(edges: seq<Edge>, id: Id, ixs: seq<nat>) {
    && (forall k | 0 <= k < |ixs| :: ixs[k] < |edges| && Touches(edges[ixs[k]], id))
    && (forall i | 0 <= i < |edges| && Touches(edges[i], id) :: i in ixs)
    && (forall j, k | 0 <= j < k < |ixs| :: ixs[j] <= ixs[k])
  }

  lemma {:induction false} ScanLists(edges: seq<Edge>, id: Id)
    ensures ListsIncident(edges, id, Scan(edges, id))
  {
    if edges == [] {
    } else {
      var n := |edges| - 1;
      ScanLists(edges[..n], id);
      ListsIncidentAppend(edges, id, Scan(edges[..n], id));
    }
  }

  lemma ListsIncidentAppend(edges: seq<Edge>, id: Id, older: seq<nat>)
    requires edges != [] && ListsIncident(edges[..|edges| - 1], id, older)
    ensures ListsIncident(edges, id, older + Incidence(edges[|edges| - 1], |edges| - 1, id))
  {
    var n := |edges| - 1;
    var newer := Incidence(edges[n], n, id);
    forall i | 0 <= i < |edges| && Touches(edges[i], id) ensures i in older + newer {
      if i < n {
        assert edges[..n][i] == edges[i];
      } else {
        assert n == newer[0];
      }
    }
  }

  datatype Direction = AnyWay | Outgoing | Incoming

  /** One neighbour record: the edge as seen from the node, and the node at its other end. */
  datatype Record = Record(kind: EdgeType, outgoing: bool, edgeProps: Props, node: Props)

  function TextOf(p: Props, k: Key): string {
    if k in p && p[k].Text? then p[k].s else ""
  }

  function TierOf(p: Props): Option<int> {
    if KAuthorityTier in p && p[KAuthorityTier].Number? then Some(p[KAuthorityTier].n) else None
  }

  /** An empty filter lets every edge type through. */
  predicate Selected(e: Edge, id: Id, kinds: seq<EdgeType>, direction: Direction) {
    && (kinds == [] || e.kind in kinds)
    && (direction == Outgoing ==> e.src == id)
    && (direction == Incoming ==> e.dst == id)
  }

  function RecordOf(g: Graph, e: Edge, id: Id): Record {
    var other := OtherEnd(e, id);
    Record(e.kind, e.src == id, e.props,
           if other in g.nodes then g.nodes[other] else map[KId := Text(other)])
  }

  function Records(g: Graph, ixs: seq<nat>, id: Id, kinds: seq<EdgeType>, direction: Direction): seq<Record>
    requires forall k | 0 <= k < |ixs| :: ixs[k] < |g.edges|
  {
    if ixs == [] then []
    else
      var i := |ixs| - 1;
      var e := g.edges[ixs[i]];
      Records(g, ixs[..i], id, kinds, direction) +
      (if Selected(e, id, kinds, direction) then [RecordOf(g, e, id)] else [])
  }

  function Neighbors(g: Graph, id: Id, kinds: seq<EdgeType>, direction: Direction): seq<Record>
  {
    ScanLists(g.edges, id);
    Records(g, Scan(g.edges, id), id, kinds, direction)
  }

  lemma {:induction false} RecordsAre(g: Graph, ixs: seq<nat>, id: Id, kinds: seq<EdgeType>, direction: Direction)
    requires forall k | 0 <= k < |ixs| :: ixs[k] < |g.edges|
    ensures forall r :: r in Records(g, ixs, id, kinds, direction) <==>
              exists i: nat :: i in ixs && i < |g.edges| && Selected(g.edges[i], id, kinds, direction)
                && r == RecordOf(g, g.edges[i], id)
    ensures |Records(g, ixs, id, kinds, direction)| <= |ixs|
  {
    if ixs == [] {
    } else {
      var n := |ixs| - 1;
      RecordsAre(g, ixs[..n], id, kinds, direction);
      assert forall i :: i in ixs <==> i in ixs[..n] || i == ixs[n];
    }
  }

  /** The neighbour records are exactly the selected edges that touch the node. */
  lemma NeighborsAre(g: Graph, id: Id, kinds: seq<EdgeType>, direction: Direction)
    ensures forall r :: r in Neighbors(g, id, kinds, direction) <==>
              exists e :: e in g.edges && Touches(e, id) && Selected(e, id, kinds, direction) && r == RecordOf(g, e, id)
  {
    ScanLists(g.edges, id);
    RecordsAre(g, Scan(g.edges, id), id, kinds, direction);
    forall r ensures r in Neighbors(g, id, kinds, direction) <==>
              exists e :: e in g.edges && Touches(e, id) && Selected(e, id, kinds, direction)
                && r == RecordOf(g, e, id) {
      if e :| e in g.edges && Touches(e, id) && Selected(e, id, kinds, direction) && r == RecordOf(g, e, id) {
        var i :| 0 <= i < |g.edges| && g.edges[i] == e;
        assert i in Scan(g.edges, id);
      }
    }
  }

  /** The edge touches the node and passes the filters, and the record says what is seen of it from the node. */
  ghost predicate Tells(g: Graph, e: Edge, id: Id, kinds: seq<EdgeType>, direction: Direction, r: Record) {
    && (direction == AnyWay ==> e.src == id || e.dst == id)
    && (direction == Outgoing ==> e.src == id) && (direction == Incoming ==> e.dst == id)
    && (kinds != [] ==> e.kind in kinds)
    && r.kind == e.kind && r.edgeProps == e.props && (r.outgoing <==> e.src == id)
    && (e.src == id ==> r.node == if e.dst in g.nodes then g.nodes[e.dst] else map[KId := Text(e.dst)])
    && (e.src != id ==> r.node == if e.src in g.nodes then g.nodes[e.src] else map[KId := Text(e.src)])
  }

  /** How often the node is an end of the edge. */
  function Ends(e: Edge, id: Id): nat {
    (if e.src == id then 1 else 0) + (if e.dst == id then 1 else 0)
  }

  lemma {:induction false} ScanCounts(edges: seq<Edge>, id: Id, i: nat)
    ensures multiset(Scan(edges, id))[i] == if i < |edges| then Ends(edges[i], id) else 0
  {
    if edges != [] {
      var n := |edges| - 1;
      ScanCounts(edges[..n], id, i);
    }
  }

  /** The records are those of the indices, one for one. */
  ghost predicate TellsEach(g: Graph, at: seq<nat>, id: Id, kinds: seq<EdgeType>, direction: Direction,
                            rs: seq<Record>)
  {
    && |at| == |rs|
    && forall n | 0 <= n < |at| :: at[n] < |g.edges| && Tells(g, g.edges[at[n]], id, kinds, direction, rs[n])
  }

  ghost predicate Rising(at: seq<nat>) {
    forall n, m | 0 <= n < m < |at| :: at[n] <= at[m]
  }

  /** Whether the edge gives the node a record. */
  ghost predicate Passes(e: Edge, id: Id, kinds: seq<EdgeType>, direction: Direction) {
    && (kinds != [] ==> e.kind in kinds)
    && (direction == Outgoing ==> e.src == id) && (direction == Incoming ==> e.dst == id)
  }

  /** Every index as often as in the list, if its edge passes. */
  ghost predicate Sifts(g: Graph, at: seq<nat>, ixs: seq<nat>, id: Id, kinds: seq<EdgeType>, direction: Direction) {
    && (forall n | 0 <= n < |at| :: at[n] in ixs)
    && forall i: nat :: multiset(at)[i] ==
                        if i < |g.edges| && Passes(g.edges[i], id, kinds, direction) then multiset(ixs)[i] else 0
  }

  lemma OneMoreSifted(g: Graph, at: seq<nat>, ixs: seq<nat>, x: nat, id: Id, kinds: seq<EdgeType>,
                      direction: Direction)
    requires Sifts(g, at, ixs, id, kinds, direction) && x < |g.edges|
    ensures Sifts(g, if Passes(g.edges[x], id, kinds, direction) then at + [x] else at, ixs + [x], id, kinds, direction)
  {
    hide Passes;
  }

  lemma OneMoreTold(g: Graph, at: seq<nat>, x: nat, id: Id, kinds: seq<EdgeType>, direction: Direction,
                    rs: seq<Record>)
    requires TellsEach(g, at, id, kinds, direction, rs) && x < |g.edges| && Touches(g.edges[x], id)
    requires Passes(g.edges[x], id, kinds, direction)
    ensures TellsEach(g, at + [x], id, kinds, direction, rs + [RecordOf(g, g.edges[x], id)])
  {
    var r := RecordOf(g, g.edges[x], id);
    assert Tells(g, g.edges[x], id, kinds, direction, r);
    hide Tells, Passes, RecordOf, Touches;
  }

  lemma OneMoreRises(at: seq<nat>, ixs: seq<nat>, x: nat)
    requires Rising(at) && Rising(ixs + [x]) && forall n | 0 <= n < |at| :: at[n] in ixs
    ensures Rising(at + [x])
  {
    var all := ixs + [x];
    forall n | 0 <= n < |at| ensures at[n] <= x {
      var k :| 0 <= k < |ixs| && ixs[k] == at[n];
      assert all[k] <= all[|ixs|];
    }
  }

  lemma PassingIsSelected(e: Edge, id: Id, kinds: seq<EdgeType>, direction: Direction)
    ensures Selected(e, id, kinds, direction) <==> Passes(e, id, kinds, direction)
  {
  }

  /** The indices whose edges pass, in order. */
  ghost function Passing(g: Graph, ixs: seq<nat>, id: Id, kinds: seq<EdgeType>, direction: Direction): seq<nat>
    requires forall k | 0 <= k < |ixs| :: ixs[k] < |g.edges|
  {
    if ixs == [] then []
    else
      var n := |ixs| - 1;
      Passing(g, ixs[..n], id, kinds, direction)
      + if Passes(g.edges[ixs[n]], id, kinds, direction) then [ixs[n]] else []
  }

  lemma PassingLast(g: Graph, ixs: seq<nat>, id: Id, kinds: seq<EdgeType>, direction: Direction) returns (n: nat)
    requires (forall k | 0 <= k < |ixs| :: ixs[k] < |g.edges|) && ixs != []
    ensures |ixs| == n + 1 && ixs == ixs[..n] + [ixs[n]]
    ensures Passing(g, ixs, id, kinds, direction) ==
            if Passes(g.edges[ixs[n]], id, kinds, direction) then
              Passing(g, ixs[..n], id, kinds, direction) + [ixs[n]]
            else Passing(g, ixs[..n], id, kinds, direction)
  {
    hide Passes;
    n := |ixs| - 1;
    var older := Passing(g, ixs[..n], id, kinds, direction);
    assert older + [] == older;
  }

  lemma NothingPasses(g: Graph, id: Id, kinds: seq<EdgeType>, direction: Direction)
    ensures Passing(g, [], id, kinds, direction) == [] && Sifts(g, [], [], id, kinds, direction)
  {
  }

  lemma {:induction false} PassingSifts(g: Graph, ixs: seq<nat>, id: Id, kinds: seq<EdgeType>, direction: Direction)
    requires forall k | 0 <= k < |ixs| :: ixs[k] < |g.edges|
    ensures Sifts(g, Passing(g, ixs, id, kinds, direction), ixs, id, kinds, direction)
  {
    hide Passes, Sifts, Passing;
    if ixs == [] {
      NothingPasses(g, id, kinds, direction);
    } else {
      var n := PassingLast(g, ixs, id, kinds, direction);
      PassingSifts(g, ixs[..n], id, kinds, direction);
      OneMoreSifted(g, Passing(g, ixs[..n], id, kinds, direction), ixs[..n], ixs[n], id, kinds, direction);
    }
  }

  lemma {:induction false} PassingRises(g: Graph, ixs: seq<nat>, id: Id, kinds: seq<EdgeType>, direction: Direction)
    requires (forall k | 0 <= k < |ixs| :: ixs[k] < |g.edges|) && Rising(ixs)
    ensures Rising(Passing(g, ixs, id, kinds, direction))
  {
    hide Passes, Passing;
    if ixs == [] {
      NothingPasses(g, id, kinds, direction);
    } else {
      var n := PassingLast(g, ixs, id, kinds, direction);
      assert Rising(ixs[..n]);
      PassingSifts(g, ixs[..n], id, kinds, direction);
      hide Rising;
      PassingRises(g, ixs[..n], id, kinds, direction);
      SiftedAreThere(g, Passing(g, ixs[..n], id, kinds, direction), ixs[..n], id, kinds, direction);
      hide Sifts;
      OneMoreRises(Passing(g, ixs[..n], id, kinds, direction), ixs[..n], ixs[n]);
    }
  }

  lemma SiftedAreThere(g: Graph, at: seq<nat>, ixs: seq<nat>, id: Id, kinds: seq<EdgeType>, direction: Direction)
    requires Sifts(g, at, ixs, id, kinds, direction)
    ensures forall n | 0 <= n < |at| :: at[n] in ixs
  {
    hide Passes;
  }

  lemma {:induction false} PassingTells(g: Graph, ixs: seq<nat>, id: Id, kinds: seq<EdgeType>, direction: Direction)
    requires forall k | 0 <= k < |ixs| :: ixs[k] < |g.edges| && Touches(g.edges[ixs[k]], id)
    ensures TellsEach(g, Passing(g, ixs, id, kinds, direction), id, kinds, direction,
                      Records(g, ixs, id, kinds, direction))
  {
    hide Selected, Touches, Tells, Passes, RecordOf;
    if ixs != [] {
      var n := |ixs| - 1;
      PassingTells(g, ixs[..n], id, kinds, direction);
      hide TellsEach;
      PassingIsSelected(g.edges[ixs[n]], id, kinds, direction);
      if Passes(g.edges[ixs[n]], id, kinds, direction) {
        OneMoreTold(g, Passing(g, ixs[..n], id, kinds, direction), ixs[n], id, kinds, direction,
                    Records(g, ixs[..n], id, kinds, direction));
      }
    }
  }

  /**
   * The neighbour records, edge by edge: one for every edge that touches the node and passes, two for a loop, oldest
   * first, each saying what is seen of its edge.
   */
  lemma NeighborsTold(g: Graph, id: Id, kinds: seq<EdgeType>, direction: Direction) returns (at: seq<nat>)
    ensures TellsEach(g, at, id, kinds, direction, Neighbors(g, id, kinds, direction)) && Rising(at)
    ensures forall i: nat ::
              multiset(at)[i] ==
              if i < |g.edges| && Passes(g.edges[i], id, kinds, direction) then Ends(g.edges[i], id) else 0
  {
    var ixs: seq<nat> := Scan(g.edges, id);
    ScanLists(g.edges, id);
    hide TellsEach, Passes, Ends, Records;
    PassingTells(g, ixs, id, kinds, direction);
    PassingRises(g, ixs, id, kinds, direction);
    PassingSifts(g, ixs, id, kinds, direction);
    at := Passing(g, ixs, id, kinds, direction);
    forall i: nat ensures multiset(Scan(g.edges, id))[i] == if i < |g.edges| then Ends(g.edges[i], id) else 0 {
      ScanCounts(g.edges, id, i);
    }
  }

  predicate IsSpanNode(node: Props) {
    KNodeType in node && node[KNodeType] == Tag(SourceSpan)
  }

  /** Edge `i` is a provenance edge from the node to a stored source span. */
  predicate IsProvenance(g: Graph, i: nat, id: Id) {
    && i < |g.edges|
    && g.edges[i].kind == NodeDerivedFromSource && g.edges[i].src == id
    && g.edges[i].dst in g.nodes && IsSpanNode(g.nodes[g.edges[i].dst])
  }

  /** The oldest provenance edge of the node at index `from` or later. */
  function FirstProvenance(g: Graph, id: Id, from: nat): (r: Option<nat>)
    requires from <= |g.edges|
    ensures r.Some? ==> from <= r.value && IsProvenance(g, r.value, id)
    ensures forall j | from <= j < (if r.Some? then r.value else |g.edges|) :: !IsProvenance(g, j, id)
    decreases |g.edges| - from
  {
    if from == |g.edges| then None
    else if IsProvenance(g, from, id) then Some(from)
    else FirstProvenance(g, id, from + 1)
  }

  function SpanOf(g: Graph, id: Id): (r: Option<Props>)
    ensures r.None? <==> forall j :: !IsProvenance(g, j, id)
  {
    match FirstProvenance(g, id, 0)
    case None => None
    case Some(i) => Some(g.nodes[g.edges[i].dst])
  }
}
