/** The paths shown to the user: parent pointers climbed back to a seed. */
module GraphPaths {
  import opened Wrappers
  import opened Ontology
  import opened StoreModel
  import opened Reachability
  import opened TypedWalk
  import opened WalkState
  import opened WalkTrace

  /** One element of a path: a node id or an edge type. */
  datatype Hop = AtNode(id: Id) | Via(kind: EdgeType)

  const GUARD := 64

  /** The path to `x` with at most `fuel` nodes, the ones nearest to `x`. */
  function PathTo(parents: map<Id, Parent>, x: Id, fuel: nat): seq<Hop>
    decreases fuel
  {
    if fuel == 0 then []
    else if x !in parents then [AtNode(x)]
    else PathTo(parents, parents[x].id, fuel - 1) + [Via(parents[x].via), AtNode(x)]
  }

  function Reversed<T>(s: seq<T>): seq<T> {
    if s == [] then [] else Reversed(s[1..]) + [s[0]]
  }

  lemma {:induction false} ReversedSnoc<T>(s: seq<T>, x: T)
    ensures Reversed(s + [x]) == [x] + Reversed(s)
  {
    if s == [] {
    } else {
      ReversedSnoc(s[1..], x);
      assert (s + [x])[1..] == s[1..] + [x];
    }
  }

  lemma PathStep(parents: map<Id, Parent>, c: Id, fuel: nat)
    requires fuel > 0
    ensures PathTo(parents, c, fuel) ==
            if c !in parents then [AtNode(c)]
            else PathTo(parents, parents[c].id, fuel - 1) + [Via(parents[c].via), AtNode(c)]
  {
  }

  /** The node, and the edge to its parent if it has one, as they are appended while climbing. */
  lemma ReversedStep(path: seq<Hop>, v: Hop, e: Hop)
    ensures Reversed(path + [v]) == [v] + Reversed(path)
    ensures Reversed(path + [v] + [e]) == [e, v] + Reversed(path)
  {
    hide Reversed;
    ReversedSnoc(path, v);
    ReversedSnoc(path + [v], e);
  }

  lemma NothingReversed()
    ensures Reversed<Hop>([]) == []
  {
  }

  lemma NoFuel(parents: map<Id, Parent>, x: Id)
    ensures PathTo(parents, x, 0) == []
  {
  }

  /** Climbs at most `GUARD` steps, then turns the list around. */
  method ReconstructPath(x: Id, parents: map<Id, Parent>) returns (path: seq<Hop>)
    ensures path == PathTo(parents, x, GUARD)
  {
    hide PathTo, Reversed;
    path := [];
    NothingReversed();
    var cur, guard := Some(x), 0;
    while cur.Some? && guard < GUARD
      invariant guard <= GUARD
      invariant PathTo(parents, x, GUARD) ==
                (if cur.Some? then PathTo(parents, cur.value, GUARD - guard) else []) + Reversed(path)
      decreases cur.Some?, GUARD - guard
    {
      var c := cur.value;
      PathStep(parents, c, GUARD - guard);
      ReversedStep(path, AtNode(c), if c in parents then Via(parents[c].via) else AtNode(c));
      path := path + [AtNode(c)];
      if c !in parents {
        cur := None;
        break;
      }
      path := path + [Via(parents[c].via)];
      cur := Some(parents[c].id);
      guard := guard + 1;
    }
    if cur.Some? { NoFuel(parents, cur.value); }
    path := Reversed(path);
  }

  /** Some stored edge of the given type joins the two nodes. */
  ghost predicate Joined(g: Graph, a: Id, kind: EdgeType, b: Id) {
    exists e :: e in g.edges && e.kind == kind && Touches(e, a) && OtherEnd(e, a) == b
  }

  /** The path that visits `ids` along edges of the given types. */
  function Interleave(ids: seq<Id>, kinds: seq<EdgeType>): (path: seq<Hop>)
    requires |ids| == |kinds| + 1
    ensures |path| == 2 * |kinds| + 1 && path[0] == AtNode(ids[0])
  {
    var n := |kinds|;
    if n == 0 then [AtNode(ids[0])]
    else Interleave(ids[..n], kinds[..n - 1]) + [Via(kinds[n - 1]), AtNode(ids[n])]
  }

  /** Every two neighbours on the trail are joined by a stored edge of the stated type. */
  ghost predicate IsTrail(g: Graph, ids: seq<Id>, kinds: seq<EdgeType>) {
    && |ids| == |kinds| + 1
    && forall i | 0 <= i < |kinds| :: Joined(g, ids[i], kinds[i], ids[i + 1])
  }

  ghost predicate Shortest(g: Graph, q: WalkQuery, start: set<Id>, ids: seq<Id>, x: Id) {
    && IsRoute(TypedHops(g, q), start, ids) && ids[|ids| - 1] == x
    && forall p :: IsRoute(TypedHops(g, q), start, p) && p[|p| - 1] == x ==> |ids| <= |p|
  }

  /** The path is a trail from a seed to `x` over the walk's hops, with as few edges as any such route has. */
  ghost predicate IsShortestTrail(g: Graph, q: WalkQuery, start: set<Id>, path: seq<Hop>, x: Id) {
    exists ids, kinds :: IsTrail(g, ids, kinds) && path == Interleave(ids, kinds) && Shortest(g, q, start, ids, x)
  }

  /** What the guard leaves of a path that is too long: it opens with an edge type instead of a node. */
  ghost predicate IsCut(path: seq<Hop>) {
    |path| == 2 * GUARD && path[0].Via?
  }

  lemma DiscoveredJoins(g: Graph, q: WalkQuery, y: Id, p: Parent)
    requires EdgesWellFormed(g) && NodesCarryTheirId(g)
    requires Discovered(g, q, y, p)
    ensures Joined(g, p.id, p.via, y) && y in TypedHops(g, q)(p.id)
  {
    hide EdgesWellFormed, NodesCarryTheirId, Frontier;
    var r :| r in Frontier(g, q, p.id) && Eligible(r, q) && TextOf(r.node, KId) == y && r.kind == p.via;
    var e := FrontierIsStored(g, q, p.id, r);
    hide Eligible, TextOf;
    assert e.kind == p.via && Touches(e, p.id) && OtherEnd(e, p.id) == y;
  }

  lemma TrailGrows(g: Graph, ids: seq<Id>, kinds: seq<EdgeType>, kind: EdgeType, y: Id)
    requires IsTrail(g, ids, kinds) && Joined(g, ids[|kinds|], kind, y)
    ensures IsTrail(g, ids + [y], kinds + [kind])
    ensures Interleave(ids + [y], kinds + [kind]) == Interleave(ids, kinds) + [Via(kind), AtNode(y)]
  {
    hide Joined;
    assert (ids + [y])[..|kinds| + 1] == ids && (kinds + [kind])[..|kinds|] == kinds;
  }

  /** With enough fuel the climb ends at a seed, one edge for every layer. */
  lemma {:induction false} PathIsTrail(g: Graph, q: WalkQuery, start: set<Id>, parents: map<Id, Parent>,
                                       depth: map<Id, nat>, x: Id, fuel: nat)
    returns (ids: seq<Id>, kinds: seq<EdgeType>)
    requires EdgesWellFormed(g) && NodesCarryTheirId(g)
    requires ParentsOk(g, q, start, parents, depth) && x in depth && depth[x] < fuel
    ensures IsTrail(g, ids, kinds) && PathTo(parents, x, fuel) == Interleave(ids, kinds)
    ensures |kinds| == depth[x] && ids[depth[x]] == x
    ensures IsRoute(TypedHops(g, q), start, ids)
    decreases fuel
  {
    hide EdgesWellFormed, NodesCarryTheirId, Discovered, TypedHops, Joined;
    if x !in parents {
      assert x in start;
      ids, kinds := [x], [];
    } else {
      var p := parents[x];
      ids, kinds := PathIsTrail(g, q, start, parents, depth, p.id, fuel - 1);
      DiscoveredJoins(g, q, x, p);
      TrailGrows(g, ids, kinds, p.via, x);
      ids, kinds := ids + [x], kinds + [p.via];
    }
  }

  /** Without enough fuel the climb stops on the way, just after an edge type. */
  lemma {:induction false} PathIsCut(g: Graph, q: WalkQuery, start: set<Id>, parents: map<Id, Parent>,
                                     depth: map<Id, nat>, x: Id, fuel: nat)
    requires ParentsOk(g, q, start, parents, depth) && x in depth && 0 < fuel <= depth[x]
    ensures |PathTo(parents, x, fuel)| == 2 * fuel && PathTo(parents, x, fuel)[0].Via?
    decreases fuel
  {
    hide Discovered;
    assert x in parents;
    if fuel > 1 {
      PathIsCut(g, q, start, parents, depth, parents[x].id, fuel - 1);
    } else {
      assert PathTo(parents, parents[x].id, 0) == [];
    }
  }

  /** The guard spares a path exactly when its node lies fewer than 64 hops from the seeds. */
  lemma GuardedPath(g: Graph, q: WalkQuery, start: set<Id>, parents: map<Id, Parent>, depth: map<Id, nat>, x: Id)
    requires EdgesWellFormed(g) && NodesCarryTheirId(g)
    requires ParentsOk(g, q, start, parents, depth) && x in depth
    requires IsDistance(TypedHops(g, q), start, x, depth[x])
    ensures depth[x] < GUARD <==> IsShortestTrail(g, q, start, PathTo(parents, x, GUARD), x)
    ensures depth[x] >= GUARD <==> IsCut(PathTo(parents, x, GUARD))
    ensures |PathTo(parents, x, GUARD)| > 1 <==> x !in start
  {
    hide EdgesWellFormed, NodesCarryTheirId, Discovered, TypedHops, IsRoute, IsDistance, PathTo;
    if x in parents { assert depth[x] == depth[parents[x].id] + 1; }
    if depth[x] < GUARD {
      var ids, kinds := PathIsTrail(g, q, start, parents, depth, x, GUARD);
      DistanceIsShortestRoute(TypedHops(g, q), start, x, depth[x]);
    } else {
      PathIsCut(g, q, start, parents, depth, x, GUARD);
    }
  }

  /** The kept nodes that were discovered rather than seeded, in the order they were kept. */
  function Unseeded(order: seq<Id>, start: set<Id>): seq<Id> {
    if order == [] then []
    else
      var x := order[|order| - 1];
      Unseeded(order[..|order| - 1], start) + (if x in start then [] else [x])
  }

  /** One path for every discovered node: a shortest trail, or one that the guard cut short. */
  ghost predicate PathsFor(g: Graph, q: WalkQuery, start: set<Id>, depth: map<Id, nat>, paths: seq<seq<Hop>>,
                           xs: seq<Id>) {
    && |paths| == |xs|
    && forall i | 0 <= i < |xs| ::
        && xs[i] in depth
        && (depth[xs[i]] < GUARD <==> IsShortestTrail(g, q, start, paths[i], xs[i]))
        && (depth[xs[i]] >= GUARD <==> IsCut(paths[i]))
  }

  /** The path of each of the nodes. */
  function PathsOf(parents: map<Id, Parent>, xs: seq<Id>): seq<seq<Hop>> {
    seq(|xs|, i requires 0 <= i < |xs| => PathTo(parents, xs[i], GUARD))
  }

  lemma NoPathsOf(parents: map<Id, Parent>, start: set<Id>)
    ensures PathsOf(parents, Unseeded([], start)) == []
  {
  }

  /** The next kept node has a path of its own exactly if it was not a seed. */
  lemma OnePathMore(g: Graph, q: WalkQuery, seeds: seq<Id>, w: Walk, h: History, k: nat)
    requires Sound(g, q, seeds, w, h) && k < |w.order|
    ensures var start, path := TypedStart(g, q, seeds), PathTo(w.parents, w.order[k], GUARD);
            PathsOf(w.parents, Unseeded(w.order[..k + 1], start)) ==
            PathsOf(w.parents, Unseeded(w.order[..k], start)) + (if |path| > 1 then [path] else [])
  {
    hide Sound, TypedStart, Unseeded, PathTo, KeptOk, FoundOk, BestFirst;
    var start, x := TypedStart(g, q, seeds), w.order[k];
    SoundParts(g, q, seeds, w, h);
    KeptCounts(g, q, seeds, w, h);
    assert x in Ids(w.order);
    LongPath(w.parents, x);
    assert w.order[..k + 1][..k] == w.order[..k];
    UnseededStep(w.order[..k + 1], start);
  }

  lemma UnseededStep(order: seq<Id>, start: set<Id>)
    requires order != []
    ensures var x := order[|order| - 1];
            Unseeded(order, start) == Unseeded(order[..|order| - 1], start) + (if x in start then [] else [x])
  {
  }

  lemma LongPath(parents: map<Id, Parent>, x: Id)
    ensures |PathTo(parents, x, GUARD)| > 1 <==> x in parents
  {
  }

  lemma NoPathsYet(g: Graph, q: WalkQuery, start: set<Id>, depth: map<Id, nat>)
    ensures PathsFor(g, q, start, depth, [], Unseeded([], start))
  {
  }

  lemma PathKeeps(g: Graph, q: WalkQuery, seeds: seq<Id>, w: Walk, h: History, k: nat, paths: seq<seq<Hop>>)
    requires Consistent(g) && Sound(g, q, seeds, w, h) && k < |w.order|
    requires PathsFor(g, q, TypedStart(g, q, seeds), h.depth, paths, Unseeded(w.order[..k], TypedStart(g, q, seeds)))
    ensures var path := PathTo(w.parents, w.order[k], GUARD);
            PathsFor(g, q, TypedStart(g, q, seeds), h.depth, if |path| > 1 then paths + [path] else paths,
                     Unseeded(w.order[..k + 1], TypedStart(g, q, seeds)))
  {
    hide EdgesWellFormed, NodesCarryTheirId, IndexAgrees, HeapOk, FoundOk, ParentsOk, TypedStart, TypedHops,
      IsDistance, IsShortestTrail, IsCut, PathTo, Reach, AdmissibleId, Scored, NoRepeats;
    var x := w.order[k];
    assert w.order[..k + 1][..k] == w.order[..k];
    assert x in Ids(w.order);
    GuardedPath(g, q, TypedStart(g, q, seeds), w.parents, h.depth, x);
  }

  // ---------------------------------------------------------------------------
  // Splitting paths for the answer
  // ---------------------------------------------------------------------------

  datatype GraphPath = GraphPath(nodes: seq<Hop>, edges: seq<Hop>)

  function EveryOther(p: seq<Hop>, parity: nat): seq<Hop> {
    if p == [] then []
    else
      var n := |p| - 1;
      EveryOther(p[..n], parity) + (if n % 2 == parity then [p[n]] else [])
  }

  /** Even positions become the nodes of the answer's path, odd ones its edges; empty paths are skipped. */
  method SplitPaths(paths: seq<seq<Hop>>) returns (out: seq<GraphPath>)
    ensures out == SplitAll(paths)
  {
    out := [];
    for k := 0 to |paths|
      invariant out == SplitAll(paths[..k])
    {
      assert paths[..k + 1][..k] == paths[..k];
      var p := paths[k];
      if p == [] { continue; }
      var nodes, edges: seq<Hop> := [], [];
      for i := 0 to |p|
        invariant nodes == EveryOther(p[..i], 0) && edges == EveryOther(p[..i], 1)
      {
        assert p[..i + 1][..i] == p[..i];
        if i % 2 == 0 { nodes := nodes + [p[i]]; } else { edges := edges + [p[i]]; }
      }
      assert p[..|p|] == p;
      out := out + [GraphPath(nodes, edges)];
    }
    assert paths[..|paths|] == paths;
  }

  function SplitAll(paths: seq<seq<Hop>>): seq<GraphPath> {
    if paths == [] then []
    else
      var p := paths[|paths| - 1];
      SplitAll(paths[..|paths| - 1]) +
      (if p == [] then [] else [GraphPath(EveryOther(p, 0), EveryOther(p, 1))])
  }

  /** Each path that is not empty is split in its place: its even hops are the nodes, its odd ones the edges. */
  ghost predicate SplitsAt(paths: seq<seq<Hop>>, out: seq<GraphPath>, at: seq<nat>) {
    && |at| == |out| && (forall n, m | 0 <= n < m < |at| :: at[n] < at[m])
    && (forall i :: i in at <==> 0 <= i < |paths| && paths[i] != [])
    && forall n | 0 <= n < |at| :: at[n] < |paths| && Splits(paths[at[n]], out[n])
  }

  ghost predicate Splits(p: seq<Hop>, s: GraphPath) {
    && |s.nodes| == (|p| + 1) / 2 && |s.edges| == |p| / 2
    && forall i | 0 <= i < |p| :: p[i] == if i % 2 == 0 then s.nodes[i / 2] else s.edges[i / 2]
  }

  lemma {:induction false} EveryOtherIs(p: seq<Hop>, parity: nat)
    requires parity <= 1
    ensures |EveryOther(p, parity)| == (|p| + 1 - parity) / 2
    ensures forall i | 0 <= i < |p| && i % 2 == parity :: EveryOther(p, parity)[i / 2] == p[i]
  {
    if p != [] {
      var n := |p| - 1;
      EveryOtherIs(p[..n], parity);
      forall i | 0 <= i < |p| && i % 2 == parity ensures EveryOther(p, parity)[i / 2] == p[i] {
        if i < n { assert p[..n][i] == p[i]; }
      }
    }
  }

  lemma PathSplits(p: seq<Hop>)
    ensures Splits(p, GraphPath(EveryOther(p, 0), EveryOther(p, 1)))
  {
    EveryOtherIs(p, 0);
    EveryOtherIs(p, 1);
    hide EveryOther;
  }

  lemma OneMoreSplit(paths: seq<seq<Hop>>, out: seq<GraphPath>, at: seq<nat>, p: seq<Hop>, s: GraphPath)
    requires SplitsAt(paths, out, at) && Splits(p, s)
    ensures p != [] ==> SplitsAt(paths + [p], out + [s], at + [|paths|])
    ensures p == [] ==> SplitsAt(paths + [p], out, at)
  {
    hide Splits;
    var n, all := |paths|, at + [|paths|];
    assert all[|at|] == n && forall i :: i in all <==> i in at || i == n;
    assert forall m | 0 <= m < |at| :: at[m] in at;
  }

  lemma {:induction false} SplitAllIs(paths: seq<seq<Hop>>) returns (at: seq<nat>)
    ensures SplitsAt(paths, SplitAll(paths), at)
  {
    if paths == [] {
      at := [];
    } else {
      hide SplitsAt, Splits, EveryOther;
      var n := |paths| - 1;
      var before := SplitAllIs(paths[..n]);
      var p := paths[n];
      assert paths == paths[..n] + [p];
      PathSplits(p);
      OneMoreSplit(paths[..n], SplitAll(paths[..n]), before, p, GraphPath(EveryOther(p, 0), EveryOther(p, 1)));
      at := if p == [] then before else before + [n];
      assert SplitAll(paths[..n]) + [] == SplitAll(paths[..n]);
    }
  }

  lemma EveryOtherSnoc(p: seq<Hop>, parity: nat, h: Hop)
    ensures EveryOther(p + [h], parity) == EveryOther(p, parity) + (if |p| % 2 == parity then [h] else [])
  {
    assert (p + [h])[..|p|] == p;
  }

  function Nodes(ids: seq<Id>): seq<Hop> {
    seq(|ids|, i requires 0 <= i < |ids| => AtNode(ids[i]))
  }

  function Edges(kinds: seq<EdgeType>): seq<Hop> {
    seq(|kinds|, i requires 0 <= i < |kinds| => Via(kinds[i]))
  }

  lemma NodesSnoc(ids: seq<Id>, x: Id)
    ensures Nodes(ids + [x]) == Nodes(ids) + [AtNode(x)]
  {
  }

  lemma EdgesSnoc(kinds: seq<EdgeType>, k: EdgeType)
    ensures Edges(kinds + [k]) == Edges(kinds) + [Via(k)]
  {
  }

  lemma InterleaveSnoc(ids: seq<Id>, kinds: seq<EdgeType>, k: EdgeType, x: Id)
    requires |ids| == |kinds| + 1
    ensures Interleave(ids + [x], kinds + [k]) == Interleave(ids, kinds) + [Via(k)] + [AtNode(x)]
  {
    assert (ids + [x])[..|ids|] == ids && (kinds + [k])[..|kinds|] == kinds;
  }

  lemma OneNodeSplits(x: Id)
    ensures Interleave([x], []) == [AtNode(x)]
    ensures EveryOther([AtNode(x)], 0) == Nodes([x]) && EveryOther([AtNode(x)], 1) == Edges([])
  {
    assert [AtNode(x)][..0] == [];
  }

  /** Splitting undoes the interleaving: k+1 nodes and k edges, each in the order of the trail. */
  lemma {:induction false} TrailSplits(ids: seq<Id>, kinds: seq<EdgeType>)
    requires |ids| == |kinds| + 1
    ensures EveryOther(Interleave(ids, kinds), 0) == Nodes(ids)
    ensures EveryOther(Interleave(ids, kinds), 1) == Edges(kinds)
    decreases |kinds|
  {
    hide EveryOther, Interleave, Nodes, Edges;
    var n := |kinds|;
    if n == 0 {
      assert ids == [ids[0]] && kinds == [];
      OneNodeSplits(ids[0]);
    } else {
      var xs, ks := ids[..n], kinds[..n - 1];
      assert ids == xs + [ids[n]] && kinds == ks + [kinds[n - 1]];
      TrailSplits(xs, ks);
      var p, e, v := Interleave(xs, ks), Via(kinds[n - 1]), AtNode(ids[n]);
      InterleaveSnoc(xs, ks, kinds[n - 1], ids[n]);
      NodesSnoc(xs, ids[n]);
      EdgesSnoc(ks, kinds[n - 1]);
      EveryOtherSnoc(p, 0, e);
      EveryOtherSnoc(p, 1, e);
      EveryOtherSnoc(p + [e], 0, v);
      EveryOtherSnoc(p + [e], 1, v);
      assert Nodes(xs) + [] == Nodes(xs);
      assert Edges(ks) + [e] + [] == Edges(ks) + [e];
    }
  }
}
