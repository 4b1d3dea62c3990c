/** The graph retriever's walk over the in-memory store. */
module GraphRetriever {
  import opened Ontology
  import opened StableSort
  import opened StoreModel
  import opened GraphStore
  import opened Reachability
  import opened TypedWalk
  import opened WalkState
  import opened WalkTrace
  import opened GraphPaths

  class GraphRetrievalResult {
    var nodes: map<Id, Props>
    var order: seq<Id>  // the dictionary's insertion order
    var edges: seq<FoundEdge>
    var paths: seq<seq<Hop>>

    constructor ()
      ensures nodes == map[] && order == [] && edges == [] && paths == []
    {
      nodes, order, edges, paths := map[], [], [], [];
    }

    function State(heap: seq<Entry>, counter: nat, parents: map<Id, Parent>): Walk
      reads this
    {
      Walk(nodes, order, edges, heap, counter, parents)
    }
  }

  class GraphRetriever {
    const store: InMemoryGraphStore

    constructor (store: InMemoryGraphStore)
      ensures this.store == store
    {
      this.store := store;
    }

    /**
     * Fills an empty result with the bounded walk from the seeds, and a path for every node discovered. The entries
     * taken out of the heap, best first, and the records looked at say which nodes, edges and parents these are.
     */
    method TypedBfs(seeds: seq<Id>, q: WalkQuery, result: GraphRetrievalResult)
      returns (ghost depth: map<Id, nat>, ghost popped: seq<Entry>, ghost looks: seq<Look>, parents: map<Id, Parent>)
      requires store.Valid()
      requires result.State([], 0, map[]) == NOTHING && result.paths == []
      modifies result
      ensures BoundedWalk(TypedHops(store.View(), q), TypedStart(store.View(), q, seeds), q.maxHops, q.maxNodes, depth)
      ensures result.nodes.Keys == depth.Keys
      ensures TypedStart(store.View(), q, seeds) <= result.nodes.Keys
      ensures |result.nodes| <= q.maxNodes || result.nodes.Keys == TypedStart(store.View(), q, seeds)
      ensures |result.nodes| <= q.maxNodes <==> |TypedStart(store.View(), q, seeds)| <= q.maxNodes
      ensures parents.Keys == result.nodes.Keys - TypedStart(store.View(), q, seeds)
      ensures KeptOk(store.View(), q, result.nodes, result.order, parents)
      ensures FoundOk(store.View(), result.edges)
      ensures Finished(store.View(), q, seeds, WalkResult(result.order, result.edges, parents, depth, popped, looks))
      ensures result.paths == PathsOf(parents, Unseeded(result.order, TypedStart(store.View(), q, seeds)))
      ensures PathsFor(store.View(), q, TypedStart(store.View(), q, seeds), depth, result.paths,
                       Unseeded(result.order, TypedStart(store.View(), q, seeds)))
    {
      hide Consistent, Running, Sound, TypedHops, TypedStart, Seeded, SeedsTold, BoundedWalk, KeptOk, FoundOk,
        Finished, PathsFor, PathsOf, Unseeded;
      ghost var g := store.View();
      var heap, counter := Seed(seeds, q, result);
      parents := map[];
      ghost var h := SeedsStart(g, q, seeds, result.State(heap, counter, parents));
      while heap != [] && |result.nodes| < q.maxNodes
        invariant result.paths == []
        invariant Running(g, q, seeds, result.State(heap, counter, parents), h)
        decreases store.nodes.Keys - result.nodes.Keys, |heap|
      {
        ghost var keys := result.nodes.Keys;
        heap, counter, parents, h := ExpandLeast(seeds, q, result, heap, counter, parents, h);
        assert result.nodes.Keys != keys ==> store.nodes.Keys - result.nodes.Keys < store.nodes.Keys - keys;
      }
      ghost var w := result.State(heap, counter, parents);
      WalkEnds(g, q, seeds, w, h);
      depth, popped, looks := h.depth, h.popped, h.looks;
      BuildPaths(seeds, q, parents, depth, w, h, result);
    }

    /** Takes the best entry out of the heap, and expands its node unless it lies at the hop limit. */
    method ExpandLeast(ghost seeds: seq<Id>, q: WalkQuery, result: GraphRetrievalResult,
                       heap0: seq<Entry>, counter0: nat, parents0: map<Id, Parent>, ghost h0: History)
      returns (heap: seq<Entry>, counter: nat, parents: map<Id, Parent>, ghost h: History)
      requires store.Valid()
      requires Running(store.View(), q, seeds, result.State(heap0, counter0, parents0), h0)
      requires heap0 != [] && |result.nodes| < q.maxNodes
      modifies result
      ensures result.paths == old(result.paths)
      ensures Running(store.View(), q, seeds, result.State(heap, counter, parents), h)
      ensures old(result.nodes).Keys <= result.nodes.Keys <= store.nodes.Keys
      ensures result.nodes.Keys == old(result.nodes).Keys ==> |heap| < |heap0|
    {
      hide Consistent, Sound, Closed, TypedHops, TypedStart, HistoryGrows, Popped, Arrivals, Told, LookedThrough,
        LookedFrom, AllLooks, Met;
      ghost var g := store.View();
      ghost var w0 := result.State(heap0, counter0, parents0);
      SoundHeap(g, q, seeds, w0, h0);
      SoundDomain(g, q, seeds, w0, h0);
      AllLookedSoFar(g, q, seeds, w0, h0);
      assert result.order == Met(g, q, seeds, AllLooks(g, q, h0.popped));
      var least, rest := PopLeast(heap0, counter0);
      PopKeeps(g, q, seeds, w0, h0, least, rest);
      PopKeepsTold(g, q, seeds, w0, h0, least, rest);
      heap, counter, parents, h := rest, counter0, parents0, AfterPop(h0, least);
      HistoryStays(h);
      if least.depth >= q.maxHops {
        ClosedAgain(TypedHops(g, q), q.maxHops, h0, least, h);
        PoppedLooks(g, q, seeds, h0.popped, least, h.looks, result.order);
        return;
      }
      heap, counter, parents, h := Expand(seeds, q, least.id, least.depth, result, heap, counter, parents, h);
      SamePopped(AfterPop(h0, least), h);
      PoppedLooks(g, q, seeds, h0.popped, least, h.looks, result.order);
      if |result.nodes| < q.maxNodes {
        SoundDomain(g, q, seeds, result.State(heap, counter, parents), h);
        ClosedAgain(TypedHops(g, q), q.maxHops, h0, least, h);
      }
    }

    /** Keeps and queues every stored, admissible seed. */
    method Seed(seeds: seq<Id>, q: WalkQuery, result: GraphRetrievalResult) returns (heap: seq<Entry>, counter: nat)
      requires result.State([], 0, map[]) == NOTHING
      modifies result
      ensures Seeded(store.View(), q, seeds, result.State(heap, counter, map[]))
      ensures SeedsTold(store.View(), q, seeds, result.State(heap, counter, map[]))
      ensures result.paths == old(result.paths)
    {
      hide Seeded, Admissible, TypedStart, SeedsTold;
      heap, counter := [], 0;
      ghost var g := store.View();
      NothingSeeded(g, q);
      NoSeedsTold(g, q);
      assert seeds[..0] == [];
      for k := 0 to |seeds|
        invariant Seeded(g, q, seeds[..k], result.State(heap, counter, map[]))
        invariant SeedsTold(g, q, seeds[..k], result.State(heap, counter, map[]))
        invariant result.paths == old(result.paths)
      {
        var sid := seeds[k];
        assert seeds[..k + 1] == seeds[..k] + [sid];
        ghost var before := result.State(heap, counter, map[]);
        var node := store.GetNode(sid);
        if node.None? || !Admissible(node.value, q) {
          SeedSkipped(g, q, seeds[..k], before, sid);
          SeedSkippedTold(g, q, seeds[..k], before, sid);
          continue;
        }
        SeededIds(g, q, seeds[..k], before);
        SeedKept(g, q, seeds[..k], before, sid);
        SeedKeptTold(g, q, seeds[..k], before, sid);
        if sid !in result.nodes { result.order := result.order + [sid]; }
        result.nodes := result.nodes[sid := Scored(node.value, 0.0)];
        heap := heap + [Entry(0, -AuthorityBonus(node.value), 0.0, counter, sid)];
        counter := counter + 1;
        assert result.State(heap, counter, map[]) == AfterSeed(before, sid, node.value);
      }
      assert seeds[..|seeds|] == seeds;
    }

    /** Looks along the preferred edges of `x`, keeping what is new and admissible while the budget lasts. */
    method Expand(ghost seeds: seq<Id>, q: WalkQuery, x: Id, d: nat, result: GraphRetrievalResult,
                  heap0: seq<Entry>, counter0: nat, parents0: map<Id, Parent>, ghost h0: History)
      returns (heap: seq<Entry>, counter: nat, parents: map<Id, Parent>, ghost h: History)
      requires store.Valid()
      requires Sound(store.View(), q, seeds, result.State(heap0, counter0, parents0), h0)
      requires Told(store.View(), q, seeds, result.State(heap0, counter0, parents0), h0)
      requires result.order == Met(store.View(), q, seeds, h0.looks)
      requires x in h0.depth && h0.depth[x] == h0.level == d < q.maxHops
      requires |result.nodes| < q.maxNodes
      modifies result
      ensures result.paths == old(result.paths)
      ensures Sound(store.View(), q, seeds, result.State(heap, counter, parents), h)
      ensures Told(store.View(), q, seeds, result.State(heap, counter, parents), h)
      ensures LookedFrom(store.View(), q, seeds, x, h0.looks, h.looks, result.order)
      ensures HistoryGrows(h0, h)
      ensures |result.nodes| <= q.maxNodes
      ensures |result.nodes| < q.maxNodes ==> TypedHops(store.View(), q)(x) <= result.nodes.Keys
      ensures old(result.nodes).Keys <= result.nodes.Keys <= store.nodes.Keys
      ensures result.nodes.Keys == old(result.nodes).Keys ==> heap == heap0
    {
      hide Consistent, Sound, TypedHops, Frontier, PriorityList, Restrictive, ByPriority, Sort, Neighbors, HopsSeen,
        HistoryGrows, Eligible, Told, LookedFrom, Refused, LooksFrom, Met;
      ghost var g := store.View();
      heap, counter, parents, h := heap0, counter0, parents0, h0;
      var neigh := store.NeighborRecords(x, if Restrictive(q) then PriorityList(q) else [], AnyWay);
      neigh := Sort(neigh, ByPriority(PriorityList(q)));
      if |neigh| > q.fanout { neigh := neigh[..q.fanout]; }
      FrontierMeans(g, q, x);
      HistoryStays(h);
      NoHopsSeen(neigh, q, result.nodes.Keys);
      NothingLooked(g, q, x, h0.looks);
      SoundDomain(g, q, seeds, result.State(heap, counter, parents), h);
      for k := 0 to |neigh|
        invariant result.paths == old(result.paths)
        invariant Sound(g, q, seeds, result.State(heap, counter, parents), h)
        invariant Told(g, q, seeds, result.State(heap, counter, parents), h)
        invariant h.looks == LooksFrom(g, q, x, h0.looks, k) && result.order == Met(g, q, seeds, h.looks)
        invariant HistoryGrows(h0, h)
        invariant |result.nodes| <= q.maxNodes
        invariant old(result.nodes).Keys <= result.nodes.Keys <= store.nodes.Keys
        invariant result.nodes.Keys == old(result.nodes).Keys ==> heap == heap0
        invariant HopsSeen(neigh[..k], q, result.nodes.Keys)
      {
        ghost var keys := result.nodes.Keys;
        HistoryAt(h0, h, x);
        LookedOn(g, q, x, h0.looks, k);
        var full;
        heap, counter, parents, h, full := Follow(seeds, q, x, d, neigh[k], result, heap, counter, parents, h0, h);
        if full {
          StoppedHere(g, q, seeds, x, h0.looks, h.looks, result.order, k);
          return;
        }
        HopsStay(neigh[..k], q, keys, result.nodes.Keys);
        OneMoreHop(neigh, k, q, result.nodes.Keys);
        KeysBetween(old(result.nodes).Keys, keys, result.nodes.Keys);
      }
      assert neigh[..|neigh|] == neigh;
      AllLookedAt(g, q, seeds, x, h0.looks, h.looks, result.order);
      HopsCovered(g, q, x, result.nodes.Keys);
    }

    /**
     * One neighbour record: its edge is noted; its node is kept if new and admissible, unless the budget is
     * used up.
     */
    method Follow(ghost seeds: seq<Id>, q: WalkQuery, x: Id, d: nat, rec: Record, result: GraphRetrievalResult,
                  heap0: seq<Entry>, counter0: nat, parents0: map<Id, Parent>, ghost first: History, ghost h0: History)
      returns (heap: seq<Entry>, counter: nat, parents: map<Id, Parent>, ghost h: History, full: bool)
      requires store.Valid()
      requires Sound(store.View(), q, seeds, result.State(heap0, counter0, parents0), h0) && HistoryGrows(first, h0)
      requires Told(store.View(), q, seeds, result.State(heap0, counter0, parents0), h0)
      requires result.order == Met(store.View(), q, seeds, h0.looks)
      requires x in h0.depth && h0.depth[x] == h0.level == d < q.maxHops
      requires rec in Frontier(store.View(), q, x)
      requires |result.nodes| <= q.maxNodes
      modifies result
      ensures result.paths == old(result.paths)
      ensures Sound(store.View(), q, seeds, result.State(heap, counter, parents), h) && HistoryGrows(first, h)
      ensures Told(store.View(), q, seeds, result.State(heap, counter, parents), h)
      ensures h.looks == h0.looks + [Look(x, rec)]
      ensures |result.nodes| <= q.maxNodes
      ensures full ==> |result.nodes| == q.maxNodes && Refused(q, result.order, rec)
      ensures result.order == Met(store.View(), q, seeds, if full then h0.looks else h.looks)
      ensures !full && Eligible(rec, q) ==> TextOf(rec.node, KId) in result.nodes
      ensures old(result.nodes).Keys <= result.nodes.Keys <= store.nodes.Keys
      ensures result.nodes.Keys == old(result.nodes).Keys ==> heap == heap0
    {
      hide Consistent, Sound, Frontier, Eligible, Admissible, TextOf, Scored, EdgeBonus, AuthorityBonus, EdgeSeen,
        PriorityList, HistoryGrows, Told, TypedHops, Discovered, Met;
      ghost var g := store.View();
      ghost var w0 := result.State(heap0, counter0, parents0);
      heap, counter, parents, h, full := heap0, counter0, parents0, Looked(h0, x, rec), false;
      SoundDomain(g, q, seeds, w0, h0);
      KeptCounts(g, q, seeds, w0, h0);
      LookedIsSound(g, q, seeds, w0, first, h0, x, rec);
      EligibleMeans(rec, q);
      var otherId := TextOf(rec.node, KId);
      if otherId == "" {
        LookKeepsTold(g, q, seeds, w0, h0, x, rec);
        assert w0 == Noted(w0, x, rec);
        return;
      }
      RecordKeeps(g, q, seeds, w0, h, x, rec);
      result.edges := result.edges + [EdgeSeen(x, rec)];
      ghost var before := result.State(heap, counter, parents);
      assert before == Noted(w0, x, rec);
      if otherId in result.nodes || !Admissible(rec.node, q) {
        LookKeepsTold(g, q, seeds, w0, h0, x, rec);
        return;
      }
      if |result.nodes| >= q.maxNodes {
        LookKeepsTold(g, q, seeds, w0, h0, x, rec);
        full := true;
        return;
      }
      DiscoveryFacts(g, q, x, rec);
      DiscoveryKeeps(g, q, seeds, before, h, x, rec);
      DiscoveryKeepsTold(g, q, seeds, w0, h0, x, d, rec);
      HistoryAdds(first, h, otherId, h.level + 1);
      var bonus := EdgeBonus(PriorityList(q), rec.kind);
      result.nodes := result.nodes[otherId := Scored(rec.node, bonus)];
      result.order := result.order + [otherId];
      parents := parents[otherId := Parent(x, rec.kind)];
      heap := heap + [Entry(d + 1, -AuthorityBonus(rec.node), -bonus, counter, otherId)];
      counter := counter + 1;
      assert result.State(heap, counter, parents) == AfterDiscovery(before, q, x, d, rec);
      h := h.(depth := h.depth[otherId := h.level + 1]);
      SoundDomain(g, q, seeds, result.State(heap, counter, parents), h);
    }

    /** Climbs the parent pointers from every kept node; a path of one node is not reported. */
    method BuildPaths(ghost seeds: seq<Id>, q: WalkQuery, parents: map<Id, Parent>, ghost depth: map<Id, nat>,
                      ghost w: Walk, ghost h: History, result: GraphRetrievalResult)
      requires store.Valid() && Sound(store.View(), q, seeds, w, h)
      requires w.parents == parents && w.order == result.order && h.depth == depth
      requires result.paths == []
      modifies result`paths
      ensures result.paths == PathsOf(parents, Unseeded(result.order, TypedStart(store.View(), q, seeds)))
      ensures PathsFor(store.View(), q, TypedStart(store.View(), q, seeds), depth, result.paths,
                       Unseeded(result.order, TypedStart(store.View(), q, seeds)))
    {
      hide Consistent, Sound, TypedStart, PathsFor, PathTo, PathsOf, Unseeded;
      ghost var g, start := store.View(), TypedStart(store.View(), q, seeds);
      NoPathsYet(g, q, start, depth);
      assert result.order[..0] == [];
      NoPathsOf(parents, start);
      for k := 0 to |result.order|
        invariant result.paths == PathsOf(parents, Unseeded(result.order[..k], start))
        invariant PathsFor(g, q, start, depth, result.paths, Unseeded(result.order[..k], start))
      {
        var nid := result.order[k];
        assert result.order[..k + 1][..k] == result.order[..k];
        var path := ReconstructPath(nid, parents);
        PathKeeps(g, q, seeds, w, h, k, result.paths);
        OnePathMore(g, q, seeds, w, h, k);
        if |path| > 1 { result.paths := result.paths + [path]; }
      }
      assert result.order[..|result.order|] == result.order;
    }
  }
}
