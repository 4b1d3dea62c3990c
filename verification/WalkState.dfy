/** The bookkeeping of the query-time walk, and what every step of it keeps. */
module WalkState {
  import opened Wrappers
  import opened Ontology
  import opened StoreModel
  import opened Reachability
  import opened TypedWalk

  datatype FoundEdge = FoundEdge(kind: EdgeType, src: Id, dst: Id, props: Props)
  datatype Parent = Parent(id: Id, via: EdgeType)

  /** The walk's variables; `order` is the insertion order of the dictionary `kept`. */
  datatype Walk = Walk(
    kept: map<Id, Props>, order: seq<Id>, found: seq<FoundEdge>,
    heap: seq<Entry>, counter: nat, parents: map<Id, Parent>)

  /** One record looked at while the node `from` is expanded. */
  datatype Look = Look(from: Id, rec: Record)

  /** What the proof remembers besides: depths, expansions and looks so far, and the layer reached. */
  datatype History = History(
    depth: map<Id, nat>, expanded: set<Id>, level: nat, popped: seq<Entry>, looks: seq<Look>)

  function Scored(node: Props, score: real): Props {
    if KScore in node then node else node[KScore := Fraction(score)]
  }

  function AfterSeed(w: Walk, id: Id, node: Props): Walk {
    w.(kept := w.kept[id := Scored(node, 0.0)],
       order := if id in w.kept then w.order else w.order + [id],
       heap := w.heap + [Entry(0, -AuthorityBonus(node), 0.0, w.counter, id)],
       counter := w.counter + 1)
  }

  function EdgeSeen(x: Id, r: Record): FoundEdge {
    var other := TextOf(r.node, KId);
    FoundEdge(r.kind, if r.outgoing then x else other, if r.outgoing then other else x, r.edgeProps)
  }

  function AfterDiscovery(w: Walk, q: WalkQuery, x: Id, d: nat, r: Record): Walk {
    var y := TextOf(r.node, KId);
    var bonus := EdgeBonus(PriorityList(q), r.kind);
    w.(kept := w.kept[y := Scored(r.node, bonus)],
       order := w.order + [y],
       parents := w.parents[y := Parent(x, r.kind)],
       heap := w.heap + [Entry(d + 1, -AuthorityBonus(r.node), -bonus, w.counter, y)],
       counter := w.counter + 1)
  }

  // ---------------------------------------------------------------------------
  // The invariant, piece by piece
  // ---------------------------------------------------------------------------

  ghost function HeapIds(heap: seq<Entry>): set<Id> {
    set e | e in heap :: e.id
  }

  /** The nodes were expanded in queue order: by depth, then authority, then edge preference, then arrival. */
  ghost predicate BestFirst(popped: seq<Entry>) {
    forall i, j | 0 <= i < j < |popped| :: Before(popped[i], popped[j])
  }

  ghost predicate HeapOk(heap: seq<Entry>, counter: nat, h: History) {
    && Arrivals(heap, counter)
    && (forall e | e in heap :: e.id in h.depth && e.depth == h.depth[e.id])
    && BestFirst(h.popped)
    && (forall p, e | p in h.popped && e in heap :: Before(p, e))
    && (forall p | p in h.popped :: p.depth <= h.level)
  }

  /** `y` was discovered from `p.id` along a record the walk was allowed to follow. */
  ghost predicate Discovered(g: Graph, q: WalkQuery, y: Id, p: Parent) {
    exists r :: r in Frontier(g, q, p.id) && Eligible(r, q) && TextOf(r.node, KId) == y && r.kind == p.via
  }

  ghost predicate ParentsOk(g: Graph, q: WalkQuery, start: set<Id>, parents: map<Id, Parent>, depth: map<Id, nat>) {
    && parents.Keys == depth.Keys - start
    && (forall x | x in start :: x in depth && depth[x] == 0)
    && (forall y | y in parents ::
          && parents[y].id in depth && depth[y] == depth[parents[y].id] + 1
          && Discovered(g, q, y, parents[y]))
  }

  ghost function Ids(order: seq<Id>): set<Id> {
    set x | x in order
  }

  function ScoreOf(q: WalkQuery, parents: map<Id, Parent>, x: Id): real {
    if x in parents then EdgeBonus(PriorityList(q), parents[x].via) else 0.0
  }

  /** Kept nodes are stored, admissible, copied as stored, and scored by the edge that led to them. */
  ghost predicate KeptOk(g: Graph, q: WalkQuery, kept: map<Id, Props>, order: seq<Id>, parents: map<Id, Parent>) {
    && kept.Keys == Ids(order)
    && NoRepeats(order)
    && (forall x | x in kept :: AdmissibleId(g, q, x) && kept[x] == Scored(g.nodes[x], ScoreOf(q, parents, x)))
  }

  ghost predicate IsStored(g: Graph, f: FoundEdge) {
    exists e :: e in g.edges && f == FoundEdge(e.kind, e.src, e.dst, e.props)
  }

  ghost predicate FoundOk(g: Graph, found: seq<FoundEdge>) {
    forall f | f in found :: IsStored(g, f)
  }

  ghost predicate Sound(g: Graph, q: WalkQuery, seeds: seq<Id>, w: Walk, h: History) {
    && Layered(TypedHops(g, q), TypedStart(g, q, seeds), q.maxHops, h.depth, HeapIds(w.heap), h.expanded, h.level)
    && HeapOk(w.heap, w.counter, h)
    && ParentsOk(g, q, TypedStart(g, q, seeds), w.parents, h.depth)
    && w.kept.Keys == h.depth.Keys
    && KeptOk(g, q, w.kept, w.order, w.parents)
    && FoundOk(g, w.found)
  }

  // ---------------------------------------------------------------------------
  // Seeding
  // ---------------------------------------------------------------------------

  const NOTHING := Walk(map[], [], [], [], 0, map[])

  /** After some seeds: every admissible one is kept at depth zero and waits in the heap. */
  ghost predicate Seeded(g: Graph, q: WalkQuery, seeds: seq<Id>, w: Walk) {
    var start := TypedStart(g, q, seeds);
    && w.parents == map[] && w.found == []
    && w.kept.Keys == start == HeapIds(w.heap) == Ids(w.order)
    && NoRepeats(w.order)
    && (forall x | x in w.kept :: AdmissibleId(g, q, x) && w.kept[x] == Scored(g.nodes[x], 0.0))
    && Arrivals(w.heap, w.counter)
    && (forall e | e in w.heap :: e.depth == 0)
  }

  lemma OrderGrows(order: seq<Id>, y: Id)
    requires NoRepeats(order) && y !in order
    ensures NoRepeats(order + [y]) && Ids(order + [y]) == Ids(order) + {y}
  {
  }

  lemma SeedSkipped(g: Graph, q: WalkQuery, seeds: seq<Id>, w: Walk, id: Id)
    requires Seeded(g, q, seeds, w) && !AdmissibleId(g, q, id)
    ensures Seeded(g, q, seeds + [id], w)
  {
    hide AdmissibleId;
    assert TypedStart(g, q, seeds + [id]) == TypedStart(g, q, seeds);
  }

  lemma SeedKept(g: Graph, q: WalkQuery, seeds: seq<Id>, w: Walk, id: Id)
    requires Seeded(g, q, seeds, w) && AdmissibleId(g, q, id)
    ensures Seeded(g, q, seeds + [id], AfterSeed(w, id, g.nodes[id]))
  {
    var w' := AfterSeed(w, id, g.nodes[id]);
    var score := AuthorityBonus(g.nodes[id]);
    hide AdmissibleId, Admissible, AuthorityBonus, Scored, TypedStart;
    assert TypedStart(g, q, seeds + [id]) == TypedStart(g, q, seeds) + {id} by { StartGrows(g, q, seeds, id); }
    assert HeapIds(w'.heap) == HeapIds(w.heap) + {id};
    assert NoRepeats(w'.order) && Ids(w'.order) == Ids(w.order) + {id} by {
      hide HeapIds, Arrivals;
      assert id in w.kept <==> id in Ids(w.order);
      if id !in w.kept { OrderGrows(w.order, id); }
    }
    hide NoRepeats, Ids;
    forall x | x in w'.kept ensures AdmissibleId(g, q, x) && x in g.nodes && w'.kept[x] == Scored(g.nodes[x], 0.0) {
      if x != id { assert x in w.kept; }
    }
  }

  lemma StartGrows(g: Graph, q: WalkQuery, seeds: seq<Id>, id: Id)
    requires AdmissibleId(g, q, id)
    ensures TypedStart(g, q, seeds + [id]) == TypedStart(g, q, seeds) + {id}
  {
    hide AdmissibleId;
  }

  lemma SeedsAreSound(g: Graph, q: WalkQuery, seeds: seq<Id>, w: Walk) returns (h: History)
    requires Seeded(g, q, seeds, w)
    ensures Sound(g, q, seeds, w, h)
    ensures h == History(map x | x in w.kept :: 0, {}, 0, [], []) && h.depth.Keys == TypedStart(g, q, seeds)
  {
    h := History(map x | x in w.kept :: 0, {}, 0, [], []);
  }

  // ---------------------------------------------------------------------------
  // Expanding
  // ---------------------------------------------------------------------------

  function AfterPop(h: History, e: Entry): History {
    h.(expanded := h.expanded + {e.id}, level := e.depth, popped := h.popped + [e])
  }

  lemma PoppedElements(heap: seq<Entry>, e: Entry, rest: seq<Entry>)
    requires Popped(heap, e, rest)
    ensures forall o :: o in heap <==> o == e || o in rest
    ensures HeapIds(heap) == HeapIds(rest) + {e.id}
  {
    assert forall o :: o in heap <==> o in multiset(heap);
    assert forall o :: o in rest <==> o in multiset(rest);
  }

  /** Taking out the least entry moves its node from waiting to expanded, and never back a layer. */
  lemma PopKeeps(g: Graph, q: WalkQuery, seeds: seq<Id>, w: Walk, h: History, e: Entry, rest: seq<Entry>)
    requires Sound(g, q, seeds, w, h)
    requires Closed(TypedHops(g, q), q.maxHops, h.depth, h.expanded)
    requires Popped(w.heap, e, rest) && Arrivals(rest, w.counter)
    ensures Sound(g, q, seeds, w.(heap := rest), AfterPop(h, e))
    ensures e.id in h.depth && h.depth[e.id] == e.depth <= q.maxHops
  {
    hide KeptOk, ParentsOk, FoundOk, TypedHops, TypedStart, Closed, HeapOk, Layered, Popped;
    PopKeepsHeap(w.heap, w.counter, h, e, rest);
    PopKeepsLayers(TypedHops(g, q), TypedStart(g, q, seeds), q.maxHops, w.heap, w.counter, h, e, rest);
  }

  lemma PopKeepsHeap(heap: seq<Entry>, counter: nat, h: History, e: Entry, rest: seq<Entry>)
    requires HeapOk(heap, counter, h)
    requires Popped(heap, e, rest) && Arrivals(rest, counter)
    ensures e.id in h.depth && h.depth[e.id] == e.depth
    ensures (forall p | p in h.popped :: p.depth <= e.depth) ==> HeapOk(rest, counter, AfterPop(h, e))
    ensures forall p | p in h.popped :: p.depth <= e.depth
  {
    PoppedElements(heap, e, rest);
    hide Arrivals;
    assert e in heap;
    forall p | p in h.popped ensures Before(p, e) {}
  }

  lemma PoppedIsNearest(heap: seq<Entry>, counter: nat, h: History, e: Entry, rest: seq<Entry>)
    requires HeapOk(heap, counter, h) && Popped(heap, e, rest)
    ensures HeapIds(heap) == HeapIds(rest) + {e.id}
    ensures forall x | x in HeapIds(heap) :: x in h.depth && e.depth <= h.depth[x]
  {
    PoppedElements(heap, e, rest);
    hide Arrivals;
    forall x | x in HeapIds(heap) ensures x in h.depth && e.depth <= h.depth[x] {
      var o :| o in heap && o.id == x;
      assert o == e || Before(e, o);
    }
  }

  lemma PopKeepsLayers(succ: Succ, start: set<Id>, maxHops: nat, heap: seq<Entry>, counter: nat, h: History,
                       e: Entry, rest: seq<Entry>)
    requires HeapOk(heap, counter, h) && Popped(heap, e, rest)
    requires Layered(succ, start, maxHops, h.depth, HeapIds(heap), h.expanded, h.level)
    requires Closed(succ, maxHops, h.depth, h.expanded)
    requires e.id in h.depth && h.depth[e.id] == e.depth
    ensures e.depth <= maxHops
    ensures Layered(succ, start, maxHops, h.depth, HeapIds(rest), h.expanded + {e.id}, e.depth)
  {
    hide Closed, HeapOk, Popped, Reach, IsDistance, HeapIds;
    PoppedIsNearest(heap, counter, h, e, rest);
    assert e.id in HeapIds(heap);
    if e.depth != h.level {
      NextLevel(succ, start, maxHops, h.depth, HeapIds(heap), h.expanded, h.level);
    }
    assert HeapIds(rest) + (h.expanded + {e.id}) == HeapIds(heap) + h.expanded;
  }

  lemma RecordKeeps(g: Graph, q: WalkQuery, seeds: seq<Id>, w: Walk, h: History, x: Id, r: Record)
    requires Consistent(g) && Sound(g, q, seeds, w, h) && r in Frontier(g, q, x)
    ensures Sound(g, q, seeds, w.(found := w.found + [EdgeSeen(x, r)]), h)
  {
    hide Layered, HeapOk, ParentsOk, Frontier, AdmissibleId, Scored, EdgeAccepted, IndexAgrees, HeapIds;
    var e := FrontierIsStored(g, q, x, r);
    assert EdgeSeen(x, r) == FoundEdge(e.kind, e.src, e.dst, e.props);
    assert IsStored(g, EdgeSeen(x, r));
  }

  lemma DiscoveryFacts(g: Graph, q: WalkQuery, x: Id, r: Record)
    requires Consistent(g) && r in Frontier(g, q, x) && Eligible(r, q)
    ensures var y := TextOf(r.node, KId);
            && y in TypedHops(g, q)(x) && Discovered(g, q, y, Parent(x, r.kind))
            && AdmissibleId(g, q, y) && r.node == g.nodes[y]
  {
    var e := FrontierIsStored(g, q, x, r);
  }

  /** Discovering a new node keeps everything: its depth is its distance, its parent one layer in. */
  lemma DiscoveryKeeps(g: Graph, q: WalkQuery, seeds: seq<Id>, w: Walk, h: History, x: Id, r: Record)
    requires Consistent(g) && Sound(g, q, seeds, w, h)
    requires x in h.depth && h.depth[x] == h.level < q.maxHops
    requires r in Frontier(g, q, x) && Eligible(r, q) && TextOf(r.node, KId) !in w.kept
    ensures Sound(g, q, seeds, AfterDiscovery(w, q, x, h.level, r),
            h.(depth := h.depth[TextOf(r.node, KId) := h.level + 1]))
  {
    hide Sound, TypedHops, Discovered, Admissible, AdmissibleId, Frontier, Eligible, Consistent, EdgeBonus,
      AuthorityBonus, Scored, TextOf;
    DiscoveryFacts(g, q, x, r);
    var y := TextOf(r.node, KId);
    var entry := Entry(h.level + 1, -AuthorityBonus(r.node), -EdgeBonus(PriorityList(q), r.kind), w.counter, y);
    NewNodeKeeps(g, q, seeds, w, h, x, y, r.node, r.kind, entry);
  }

  lemma NewNodeKeeps(g: Graph, q: WalkQuery, seeds: seq<Id>, w: Walk, h: History,
                     x: Id, y: Id, node: Props, kind: EdgeType, entry: Entry)
    requires Sound(g, q, seeds, w, h)
    requires x in h.depth && h.depth[x] == h.level < q.maxHops && y !in w.kept
    requires y in TypedHops(g, q)(x) && Discovered(g, q, y, Parent(x, kind))
    requires AdmissibleId(g, q, y) && node == g.nodes[y]
    requires entry.id == y && entry.depth == h.level + 1 && entry.counter == w.counter
    ensures Sound(g, q, seeds,
                  w.(kept := w.kept[y := Scored(node, EdgeBonus(PriorityList(q), kind))], order := w.order + [y],
                     parents := w.parents[y := Parent(x, kind)], heap := w.heap + [entry], counter := w.counter + 1),
                  h.(depth := h.depth[y := h.level + 1]))
  {
    hide TypedHops, AdmissibleId, EdgeBonus, Scored, Discovered, Layered, HeapOk, ParentsOk, KeptOk, FoundOk,
      TypedStart;
    DiscoverKeeps(TypedHops(g, q), TypedStart(g, q, seeds), q.maxHops, h.depth, HeapIds(w.heap), h.expanded, h.level, x,
      y);
    assert HeapIds(w.heap + [entry]) == HeapIds(w.heap) + {y};
    HeapGrows(w.heap, w.counter, h, y, entry);
    ParentsGrow(g, q, TypedStart(g, q, seeds), w.parents, h.depth, x, y, kind);
    KeptGrows(g, q, w.kept, w.order, w.parents, y, node, Parent(x, kind));
  }

  lemma HeapGrows(heap: seq<Entry>, counter: nat, h: History, y: Id, entry: Entry)
    requires HeapOk(heap, counter, h) && y !in h.depth
    requires entry.id == y && entry.depth == h.level + 1 && entry.counter == counter
    ensures HeapOk(heap + [entry], counter + 1, h.(depth := h.depth[y := h.level + 1]))
  {
  }

  lemma ParentsGrow(g: Graph, q: WalkQuery, start: set<Id>, parents: map<Id, Parent>, depth: map<Id, nat>,
                    x: Id, y: Id, kind: EdgeType)
    requires ParentsOk(g, q, start, parents, depth)
    requires x in depth && y !in depth && Discovered(g, q, y, Parent(x, kind))
    ensures ParentsOk(g, q, start, parents[y := Parent(x, kind)], depth[y := depth[x] + 1])
  {
    hide Discovered;
  }

  lemma KeptGrows(g: Graph, q: WalkQuery, kept: map<Id, Props>, order: seq<Id>, parents: map<Id, Parent>,
                  y: Id, node: Props, p: Parent)
    requires KeptOk(g, q, kept, order, parents) && y !in kept
    requires AdmissibleId(g, q, y) && node == g.nodes[y]
    ensures KeptOk(g, q, kept[y := Scored(node, EdgeBonus(PriorityList(q), p.via))], order + [y], parents[y := p])
  {
    assert y !in Ids(order);
    OrderGrows(order, y);
    hide AdmissibleId, Scored, EdgeBonus, NoRepeats, Ids;
  }

  // ---------------------------------------------------------------------------
  // What a sound state tells
  // ---------------------------------------------------------------------------

  lemma SoundDomain(g: Graph, q: WalkQuery, seeds: seq<Id>, w: Walk, h: History)
    requires Sound(g, q, seeds, w, h)
    ensures w.kept.Keys == h.depth.Keys && w.kept.Keys <= g.nodes.Keys && h.expanded <= h.depth.Keys
  {
    hide HeapOk, ParentsOk, FoundOk, Before, HeapIds, NoRepeats, Ids, Scored, ScoreOf, Reach, Admissible;
  }

  lemma SoundParts(g: Graph, q: WalkQuery, seeds: seq<Id>, w: Walk, h: History)
    requires Sound(g, q, seeds, w, h)
    ensures KeptOk(g, q, w.kept, w.order, w.parents) && FoundOk(g, w.found) && BestFirst(h.popped)
    ensures w.parents.Keys == w.kept.Keys - TypedStart(g, q, seeds) && TypedStart(g, q, seeds) <= w.kept.Keys
  {
    hide KeptOk, FoundOk, Before, HeapIds, TypedStart, TypedHops, Reach, Discovered;
  }

  lemma SoundHeap(g: Graph, q: WalkQuery, seeds: seq<Id>, w: Walk, h: History)
    requires Sound(g, q, seeds, w, h)
    ensures Arrivals(w.heap, w.counter)
  {
    hide Admissible, ParentsOk, KeptOk, Before, FoundOk, Layered;
  }

  lemma SoundIsBounded(g: Graph, q: WalkQuery, seeds: seq<Id>, w: Walk, h: History)
    requires Sound(g, q, seeds, w, h)
    requires |w.kept| >= q.maxNodes || (w.heap == [] && Closed(TypedHops(g, q), q.maxHops, h.depth, h.expanded))
    ensures BoundedWalk(TypedHops(g, q), TypedStart(g, q, seeds), q.maxHops, q.maxNodes, h.depth)
  {
    hide Admissible, ParentsOk, KeptOk, HeapOk, FoundOk, Layered, Closed, TypedHops, TypedStart, BoundedWalk;
    assert |w.kept| == |w.kept.Keys| == |h.depth.Keys| == |h.depth|;
    LayeredIsBounded(TypedHops(g, q), TypedStart(g, q, seeds), q.maxHops, q.maxNodes, h.depth,
                     HeapIds(w.heap), h.expanded, h.level);
  }

  /** The walk only ever adds depths while it expands one node. */
  ghost predicate HistoryGrows(h: History, h': History) {
    && h'.expanded == h.expanded && h'.level == h.level && h'.popped == h.popped
    && h.depth.Keys <= h'.depth.Keys
    && forall x | x in h.depth :: h'.depth[x] == h.depth[x]
  }

  lemma HistoryStays(h: History)
    ensures HistoryGrows(h, h)
  {
  }

  lemma HistoryAt(h: History, h': History, x: Id)
    requires HistoryGrows(h, h') && x in h.depth
    ensures x in h'.depth && h'.depth[x] == h.depth[x] && h'.level == h.level && h'.expanded == h.expanded
  {
  }

  lemma HistoryAdds(h: History, h': History, y: Id, d: nat)
    requires HistoryGrows(h, h') && y !in h'.depth
    ensures HistoryGrows(h, h'.(depth := h'.depth[y := d]))
  {
  }

  /** Once a node's hops are all kept, the expanded part of the graph is closed again. */
  lemma ClosedAgain(succ: Succ, maxHops: nat, h0: History, e: Entry, h: History)
    requires Closed(succ, maxHops, h0.depth, h0.expanded) && h0.expanded <= h0.depth.Keys
    requires HistoryGrows(AfterPop(h0, e), h)
    requires e.id in h0.depth && h0.depth[e.id] == e.depth
    requires e.depth < maxHops ==> succ(e.id) <= h.depth.Keys
    ensures Closed(succ, maxHops, h.depth, h.expanded)
  {
  }

  /** Each record seen so far leads to a kept node, unless it may not be followed. */
  ghost predicate HopsSeen(rs: seq<Record>, q: WalkQuery, kept: set<Id>) {
    forall r | r in rs && Eligible(r, q) :: TextOf(r.node, KId) in kept
  }

  lemma NoHopsSeen(rs: seq<Record>, q: WalkQuery, kept: set<Id>)
    ensures HopsSeen(rs[..0], q, kept)
  {
  }

  lemma OneMoreHop(rs: seq<Record>, k: nat, q: WalkQuery, kept: set<Id>)
    requires k < |rs| && HopsSeen(rs[..k], q, kept)
    requires !Eligible(rs[k], q) || TextOf(rs[k].node, KId) in kept
    ensures HopsSeen(rs[..k + 1], q, kept)
  {
    hide Eligible;
    assert rs[..k + 1] == rs[..k] + [rs[k]];
  }

  lemma KeysBetween(a: set<Id>, b: set<Id>, c: set<Id>)
    requires a <= b <= c
    ensures c == a ==> b == a && c == b
  {
  }

  lemma HopsStay(rs: seq<Record>, q: WalkQuery, kept: set<Id>, kept': set<Id>)
    requires HopsSeen(rs, q, kept) && kept <= kept'
    ensures HopsSeen(rs, q, kept')
  {
    hide Eligible;
  }

  lemma HopsCovered(g: Graph, q: WalkQuery, x: Id, kept: set<Id>)
    requires HopsSeen(Frontier(g, q, x), q, kept)
    ensures TypedHops(g, q)(x) <= kept
  {
    hide Eligible, Frontier;
  }

  lemma NothingExpanded(succ: Succ, maxHops: nat, depth: map<Id, nat>)
    ensures Closed(succ, maxHops, depth, {})
  {
  }

  lemma NothingSeeded(g: Graph, q: WalkQuery)
    ensures Seeded(g, q, [], NOTHING)
  {
    assert TypedStart(g, q, []) == {};
  }
}
