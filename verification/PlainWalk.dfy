/** The plain first-in-first-out walk: its hops, its queue, and why it finds whole layers. */
module PlainWalk {
  import opened Wrappers
  import opened Ontology
  import opened StoreModel
  import opened Reachability

  /** What the plain walk asks of a node. A tier of zero counts as no tier. */
  predicate Visible(node: Props, authorityCeiling: Option<int>, matterScope: Option<string>) {
    && (authorityCeiling.Some? && TierOf(node) != Some(0) && TierOf(node).Some? ==>
          TierOf(node).value <= authorityCeiling.value)
    && (matterScope.Some? && TextOf(node, KMatterId) != "" ==> TextOf(node, KMatterId) == matterScope.value)
  }

  /** A node is left out exactly for a tier above the ceiling, other than zero, or for belonging to another matter. */
  lemma VisibleExactly(node: Props, authorityCeiling: Option<int>, matterScope: Option<string>)
    ensures !Visible(node, authorityCeiling, matterScope) <==>
            || (exists tier, ceiling :: TierOf(node) == Some(tier) && tier != 0 && authorityCeiling == Some(ceiling)
                  && tier > ceiling)
            || (exists scope :: matterScope == Some(scope) && TextOf(node, KMatterId) != ""
                  && TextOf(node, KMatterId) != scope)
  {
  }

  predicate VisibleId(g: Graph, authorityCeiling: Option<int>, matterScope: Option<string>, id: Id) {
    id in g.nodes && Visible(g.nodes[id], authorityCeiling, matterScope)
  }

  /** The hops of the plain walk: along any edge, to any visible node. */
  function PlainHops(g: Graph, authorityCeiling: Option<int>, matterScope: Option<string>): Succ {
    (x: Id) => set e | e in g.edges && Touches(e, x) && VisibleId(g, authorityCeiling, matterScope, OtherEnd(e, x)) ::
                 OtherEnd(e, x)
  }

  /** A hop goes from one end of a stored edge to the other. */
  lemma PlainHopsAre(g: Graph, authorityCeiling: Option<int>, matterScope: Option<string>, x: Id, y: Id)
    ensures y in PlainHops(g, authorityCeiling, matterScope)(x) <==>
            && y in g.nodes && Visible(g.nodes[y], authorityCeiling, matterScope)
            && exists e :: e in g.edges && ((e.src == x && e.dst == y) || (e.src == y && e.dst == x))
  {
    hide Visible;
  }

  function PlainStart(g: Graph, authorityCeiling: Option<int>, matterScope: Option<string>, seeds: seq<Id>): set<Id> {
    set s | s in seeds && VisibleId(g, authorityCeiling, matterScope, s)
  }

  lemma PlainHopsVisible(g: Graph, authorityCeiling: Option<int>, matterScope: Option<string>, seeds: seq<Id>,
                         ok: set<Id>)
    requires ok == set id | id in g.nodes && Visible(g.nodes[id], authorityCeiling, matterScope)
    ensures PlainStart(g, authorityCeiling, matterScope, seeds) <= ok
    ensures forall x :: PlainHops(g, authorityCeiling, matterScope)(x) <= ok
  {
  }

  /** One queue entry: a node and the depth it was met at. */
  datatype Queued = Queued(id: Id, depth: nat)

  /** The queue is in depth order and spans two layers at most. */
  ghost predicate InOrder(queue: seq<Queued>, level: nat) {
    && (forall i | 0 <= i < |queue| :: level <= queue[i].depth <= level + 1)
    && (forall i, j | 0 <= i < j < |queue| :: queue[i].depth <= queue[j].depth)
  }

  ghost predicate Waits(queue: seq<Queued>, x: Id, level: nat) {
    exists q | q in queue :: q.id == x && q.depth <= level
  }

  ghost predicate FoundOrWaits(depth: map<Id, nat>, queue: seq<Queued>, x: Id, level: nat) {
    x in depth || Waits(queue, x, level)
  }

  /**
   * The walk in progress. `ok` is the set of ids the walk would keep; anything else may sit in the
   * queue but is thrown away when it comes up.
   */
  ghost predicate Queueing(succ: Succ, start: set<Id>, maxHops: nat, ok: set<Id>,
                           depth: map<Id, nat>, queue: seq<Queued>, level: nat)
  {
    && (forall x | x in depth :: depth[x] <= maxHops && depth[x] <= level && IsDistance(succ, start, x, depth[x]))
    && InOrder(queue, level)
    && (forall q | q in queue :: q.depth <= maxHops && (q.id in ok ==> q.id in Reach(succ, start, q.depth)))
    && (level > 0 ==> Reach(succ, start, level - 1) <= depth.Keys)
    && (forall y | y in Reach(succ, start, level) :: FoundOrWaits(depth, queue, y, level))
    && (forall x, y | x in depth && depth[x] < maxHops && y in succ(x) :: FoundOrWaits(depth, queue, y, level + 1))
  }

  lemma WaitsInLayer(queue: seq<Queued>, x: Id, level: nat)
    requires InOrder(queue, level) && queue != [] && queue[0].depth == level + 1
    ensures !Waits(queue, x, level)
  {
    forall q | q in queue ensures q.depth == level + 1 {
      var i :| 0 <= i < |queue| && queue[i] == q;
    }
  }

  /** Once the queue holds only the next layer, that layer becomes the current one. */
  lemma AdvanceLevel(succ: Succ, start: set<Id>, maxHops: nat, ok: set<Id>,
                     depth: map<Id, nat>, queue: seq<Queued>, level: nat)
    requires Queueing(succ, start, maxHops, ok, depth, queue, level)
    requires queue != [] && queue[0].depth == level + 1
    ensures Queueing(succ, start, maxHops, ok, depth, queue, level + 1)
  {
    var next := level + 1;
    assert queue[0] in queue;
    forall y | y in Reach(succ, start, level) ensures y in depth {
      hide Reach;
      WaitsInLayer(queue, y, level);
      assert FoundOrWaits(depth, queue, y, level);
    }
    forall y | y in Reach(succ, start, next) ensures FoundOrWaits(depth, queue, y, next) {
      if y !in Reach(succ, start, level) {
        var x := LastHop(succ, start, y, next);
        hide Reach;
        assert x in depth;
      }
    }
    hide Reach;
    forall x, y | x in depth && depth[x] < maxHops && y in succ(x)
      ensures FoundOrWaits(depth, queue, y, next + 1)
    {
      assert FoundOrWaits(depth, queue, y, level + 1);
    }
  }

  /** The head of the queue is thrown away: it was seen before, or the walk may not keep it. */
  lemma DropHead(succ: Succ, start: set<Id>, maxHops: nat, ok: set<Id>,
                 depth: map<Id, nat>, queue: seq<Queued>, level: nat)
    requires Queueing(succ, start, maxHops, ok, depth, queue, level)
    requires queue != [] && (queue[0].id in depth || queue[0].id !in ok)
    requires start <= ok && forall x :: succ(x) <= ok
    ensures Queueing(succ, start, maxHops, ok, depth, queue[1..], level)
  {
    var q0 := queue[0];
    forall y, l: nat | FoundOrWaits(depth, queue, y, l) && y in ok ensures FoundOrWaits(depth, queue[1..], y, l) {
      if y !in depth {
        var q :| q in queue && q.id == y && q.depth <= l;
        assert q in queue[1..];
      }
    }
    forall y | y in Reach(succ, start, level) ensures FoundOrWaits(depth, queue[1..], y, level) {
      ReachStays(succ, start, ok, level);
      assert FoundOrWaits(depth, queue, y, level);
    }
    forall x, y | x in depth && depth[x] < maxHops && y in succ(x)
      ensures FoundOrWaits(depth, queue[1..], y, level + 1)
    {
      assert FoundOrWaits(depth, queue, y, level + 1) && succ(x) <= ok;
    }
  }

  lemma {:induction false} ReachStays(succ: Succ, start: set<Id>, ok: set<Id>, d: nat)
    requires start <= ok && forall x :: succ(x) <= ok
    ensures Reach(succ, start, d) <= ok
  {
    if d > 0 {
      ReachStays(succ, start, ok, d - 1);
      forall y | y in Image(succ, Reach(succ, start, d - 1)) ensures y in ok {
        var x :| x in Reach(succ, start, d - 1) && y in succ(x);
        assert succ(x) <= ok;
      }
    }
  }

  /** The head of the queue is kept; `more` is what it adds to the back. */
  lemma KeepHead(succ: Succ, start: set<Id>, maxHops: nat, ok: set<Id>,
                 depth: map<Id, nat>, queue: seq<Queued>, level: nat, more: seq<Queued>)
    requires Queueing(succ, start, maxHops, ok, depth, queue, level)
    requires queue != [] && queue[0].depth == level && queue[0].id !in depth && queue[0].id in ok
    requires forall m | m in more ::
               level < maxHops && m.depth == level + 1 && (m.id in ok ==> m.id in succ(queue[0].id))
    requires level < maxHops ==>
               forall y | y in succ(queue[0].id) :: y in depth || y == queue[0].id || exists m | m in more :: m.id == y
    ensures Queueing(succ, start, maxHops, ok, depth[queue[0].id := level], queue[1..] + more, level)
  {
    hide Reach;
    var x0 := queue[0].id;
    var depth', queue' := depth[x0 := level], queue[1..] + more;
    assert queue[0] in queue;
    forall y, l: nat | FoundOrWaits(depth, queue, y, l) ensures FoundOrWaits(depth', queue', y, l) {
      if y !in depth && y != x0 {
        var q :| q in queue && q.id == y && q.depth <= l;
        assert q in queue[1..];
        assert q in queue';
      }
    }
    forall q | q in queue' ensures q.depth <= maxHops && (q.id in ok ==> q.id in Reach(succ, start, q.depth)) {
      if q in more && q.id in ok {
        HopReaches(succ, start, level, x0, q.id);
      } else if q in queue[1..] {
        assert q in queue;
      }
    }
    forall x, y | x in depth' && depth'[x] < maxHops && y in succ(x)
      ensures FoundOrWaits(depth', queue', y, level + 1)
    {
      if x == x0 {
        if y !in depth' {
          var m :| m in more && m.id == y;
          assert m in queue';
        }
      } else {
        assert FoundOrWaits(depth, queue, y, level + 1);
      }
    }
    assert InOrder(queue', level);
  }

  lemma NothingWaits(x: Id, level: nat)
    ensures !Waits([], x, level)
  {
  }

  /** An empty queue leaves no start node and no successor out. */
  lemma QueueDrained(succ: Succ, start: set<Id>, maxHops: nat, ok: set<Id>, depth: map<Id, nat>, level: nat)
    requires Queueing(succ, start, maxHops, ok, depth, [], level)
    ensures start <= depth.Keys && Closed(succ, maxHops, depth, depth.Keys)
  {
    hide Waits, InOrder, IsDistance;
    forall y | y in start ensures y in depth {
      ReachGrows(succ, start, 0, level);
      assert y in Reach(succ, start, level);
      assert FoundOrWaits(depth, [], y, level);
      NothingWaits(y, level);
    }
    forall x | x in depth && depth[x] < maxHops ensures succ(x) <= depth.Keys {
      forall y | y in succ(x) ensures y in depth {
        assert FoundOrWaits(depth, [], y, level + 1);
        NothingWaits(y, level + 1);
      }
    }
  }

  lemma QueueingLayers(succ: Succ, start: set<Id>, maxHops: nat, ok: set<Id>,
                       depth: map<Id, nat>, queue: seq<Queued>, level: nat)
    requires Queueing(succ, start, maxHops, ok, depth, queue, level)
    ensures forall x | x in depth :: depth[x] <= maxHops && IsDistance(succ, start, x, depth[x])
    ensures forall x, d | x in depth && 0 <= d < depth[x] :: Reach(succ, start, d) <= depth.Keys
  {
    hide FoundOrWaits, InOrder, Reach, IsDistance;
    forall x, d | x in depth && 0 <= d < depth[x] ensures Reach(succ, start, d) <= depth.Keys {
      ReachGrows(succ, start, d, level - 1);
    }
  }

  lemma QueueingIsBounded(succ: Succ, start: set<Id>, maxHops: nat, maxNodes: nat, ok: set<Id>,
                          depth: map<Id, nat>, queue: seq<Queued>, level: nat)
    requires Queueing(succ, start, maxHops, ok, depth, queue, level)
    requires queue == [] || |depth| >= maxNodes
    ensures BoundedWalk(succ, start, maxHops, maxNodes, depth)
  {
    hide Queueing, Closed, Reach;
    QueueingLayers(succ, start, maxHops, ok, depth, queue, level);
    if |depth| < maxNodes {
      QueueDrained(succ, start, maxHops, ok, depth, level);
      Exhausted(succ, start, maxHops, depth, maxHops);
      forall x | x in depth ensures x in Reach(succ, start, maxHops) {
        ReachGrows(succ, start, depth[x], maxHops);
      }
    }
  }

  ghost predicate CopiedFrom(part: map<Id, Props>, whole: map<Id, Props>) {
    forall x | x in part :: x in whole && part[x] == whole[x]
  }

  lemma NothingCopied(whole: map<Id, Props>)
    ensures CopiedFrom(map[], whole)
  {
  }

  lemma CopyMore(part: map<Id, Props>, whole: map<Id, Props>, x: Id)
    requires CopiedFrom(part, whole) && x in whole
    ensures CopiedFrom(part[x := whole[x]], whole)
  {
  }

  /** What fanning out along the listed edges has queued and reported. */
  ghost predicate FanIs(edges: seq<Edge>, ixs: seq<nat>, id: Id, d: nat, kept: set<Id>,
                        more: seq<Queued>, found: seq<Edge>)
  {
    && (forall k | 0 <= k < |ixs| :: ixs[k] < |edges|)
    && (forall m | m in more :: m.depth == d + 1 && exists k :: 0 <= k < |ixs| && m.id == OtherEnd(edges[ixs[k]], id))
    && |found| == |ixs|
    && (forall k | 0 <= k < |ixs| ::
          && found[k] == edges[ixs[k]]
          && (OtherEnd(edges[ixs[k]], id) in kept || Queued(OtherEnd(edges[ixs[k]], id), d + 1) in more))
  }

  lemma FanGrows(edges: seq<Edge>, ixs: seq<nat>, k: nat, id: Id, d: nat, kept: set<Id>,
                 more: seq<Queued>, found: seq<Edge>)
    requires k < |ixs| && ixs[k] < |edges|
    requires FanIs(edges, ixs[..k], id, d, kept, more, found)
    ensures var e := edges[ixs[k]];
            FanIs(edges, ixs[..k + 1], id, d, kept,
                  if OtherEnd(e, id) in kept then more else more + [Queued(OtherEnd(e, id), d + 1)], found + [e])
  {
    var e := edges[ixs[k]];
    var more' := if OtherEnd(e, id) in kept then more else more + [Queued(OtherEnd(e, id), d + 1)];
    var now := ixs[..k + 1];
    assert now[k] == ixs[k];
    forall m | m in more'
      ensures m.depth == d + 1 && exists j :: 0 <= j < |now| && m.id == OtherEnd(edges[now[j]], id)
    {
      if m in more {
        var j :| 0 <= j < k && m.id == OtherEnd(edges[ixs[..k][j]], id);
        assert now[j] == ixs[..k][j];
      }
    }
    forall j | 0 <= j < k ensures now[j] == ixs[..k][j] {}
  }

  lemma FanDone(g: Graph, ixs: seq<nat>, id: Id, d: nat, kept: set<Id>, more: seq<Queued>, found: seq<Edge>,
                ceiling: Option<int>, scope: Option<string>)
    requires ListsIncident(g.edges, id, ixs) && FanIs(g.edges, ixs, id, d, kept, more, found)
    requires EdgesWellFormed(g)
    ensures forall m | m in more :: m.depth == d + 1 && m.id in g.nodes
    ensures forall m | m in more && Visible(g.nodes[m.id], ceiling, scope) :: m.id in PlainHops(g, ceiling, scope)(id)
    ensures forall y | y in PlainHops(g, ceiling, scope)(id) :: y in kept || Queued(y, d + 1) in more
    ensures forall e :: e in found <==> e in g.edges && Touches(e, id)
  {
    hide Visible, EdgeAccepted;
    forall m | m in more ensures
      m.id in g.nodes && (Visible(g.nodes[m.id], ceiling, scope) ==> m.id in PlainHops(g, ceiling, scope)(id))
    {
      var k :| 0 <= k < |ixs| && m.id == OtherEnd(g.edges[ixs[k]], id);
      assert g.edges[ixs[k]] in g.edges;
    }
    forall e | e in g.edges && Touches(e, id)
      ensures e in found && (OtherEnd(e, id) in kept || Queued(OtherEnd(e, id), d + 1) in more)
    {
      var i :| 0 <= i < |g.edges| && g.edges[i] == e;
      var k :| 0 <= k < |ixs| && ixs[k] == i;
      assert found[k] == e;
    }
  }

  /** The node was kept with hops to spare, so that its edges were followed. */
  predicate Expanded(depth: map<Id, nat>, maxHops: nat, id: Id) {
    id in depth && depth[id] < maxHops
  }

  /** The reported edges are exactly the stored edges of the expanded nodes. */
  ghost predicate AllShown(found: seq<Edge>, edges: seq<Edge>, depth: map<Id, nat>, maxHops: nat) {
    forall e :: e in found <==> e in edges && (Expanded(depth, maxHops, e.src) || Expanded(depth, maxHops, e.dst))
  }

  lemma NothingShown(edges: seq<Edge>, maxHops: nat)
    ensures AllShown([], edges, map[], maxHops)
  {
  }

  lemma ShownMore(found: seq<Edge>, more: seq<Edge>, edges: seq<Edge>, depth: map<Id, nat>, maxHops: nat,
                  id: Id, d: nat)
    requires AllShown(found, edges, depth, maxHops) && id !in depth
    requires forall e :: e in more <==> d < maxHops && e in edges && Touches(e, id)
    ensures AllShown(found + more, edges, depth[id := d], maxHops)
  {
    forall e ensures e in found + more <==>
      e in edges && (Expanded(depth[id := d], maxHops, e.src) || Expanded(depth[id := d], maxHops, e.dst))
    {
      assert e in found <==> e in edges && (Expanded(depth, maxHops, e.src) || Expanded(depth, maxHops, e.dst));
    }
  }

  function Seeded(g: Graph, seeds: seq<Id>): seq<Queued> {
    if seeds == [] then []
    else
      var n := |seeds| - 1;
      Seeded(g, seeds[..n]) + (if seeds[n] in g.nodes then [Queued(seeds[n], 0)] else [])
  }

  lemma {:induction false} SeededHolds(g: Graph, seeds: seq<Id>)
    ensures forall q | q in Seeded(g, seeds) :: q.depth == 0 && q.id in seeds && q.id in g.nodes
    ensures forall s | s in seeds && s in g.nodes :: Queued(s, 0) in Seeded(g, seeds)
  {
    if seeds == [] {
    } else {
      SeededHolds(g, seeds[..|seeds| - 1]);
    }
  }

  /** The queue of seeds is where a walk may begin. */
  lemma SeededQueueing(g: Graph, authorityCeiling: Option<int>, matterScope: Option<string>, seeds: seq<Id>,
                       maxHops: nat, ok: set<Id>)
    requires ok == set id | id in g.nodes && Visible(g.nodes[id], authorityCeiling, matterScope)
    ensures Queueing(PlainHops(g, authorityCeiling, matterScope), PlainStart(g, authorityCeiling, matterScope, seeds),
                     maxHops, ok, map[], Seeded(g, seeds), 0)
    ensures forall q | q in Seeded(g, seeds) :: q.id in g.nodes
  {
    SeededHolds(g, seeds);
  }

  /** Whatever comes up next tells which layer the walk has got to. */
  lemma HeadLevel(succ: Succ, start: set<Id>, maxHops: nat, ok: set<Id>,
                  depth: map<Id, nat>, queue: seq<Queued>, level: nat)
    requires Queueing(succ, start, maxHops, ok, depth, queue, level) && queue != []
    ensures Queueing(succ, start, maxHops, ok, depth, queue, queue[0].depth)
    ensures queue[0].depth <= maxHops
  {
    assert queue[0] in queue;
    if queue[0].depth != level {
      AdvanceLevel(succ, start, maxHops, ok, depth, queue, level);
    }
  }
}
