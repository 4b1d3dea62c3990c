/**
 * The walk record by record: everything the result holds follows from the order in which nodes were taken out
 * of the heap and from how far the last of them was looked at.
 */
module WalkTrace {
  import opened Wrappers
  import opened Ontology
  import opened StoreModel
  import opened Reachability
  import opened TypedWalk
  import opened WalkState

  /** The distinct elements, each where it first appears. */
  function Firsts(ids: seq<Id>): seq<Id> {
    if ids == [] then []
    else
      var n := |ids| - 1;
      Firsts(ids[..n]) + (if ids[n] in ids[..n] then [] else [ids[n]])
  }

  /** The admissible seeds as given, repeats included. */
  function SeedIds(g: Graph, q: WalkQuery, seeds: seq<Id>): seq<Id> {
    if seeds == [] then []
    else
      var n := |seeds| - 1;
      SeedIds(g, q, seeds[..n]) + (if AdmissibleId(g, q, seeds[n]) then [seeds[n]] else [])
  }

  /** The nodes that may be followed to, look by look. */
  function FarEnds(q: WalkQuery, looks: seq<Look>): seq<Id> {
    if looks == [] then []
    else
      var n := |looks| - 1;
      FarEnds(q, looks[..n]) + (if Eligible(looks[n].rec, q) then [TextOf(looks[n].rec.node, KId)] else [])
  }

  /** The edges reported: one for every look at a record that names a node, admissible or not. */
  function Reports(looks: seq<Look>): seq<FoundEdge> {
    if looks == [] then []
    else
      var n := |looks| - 1;
      Reports(looks[..n]) +
      (if TextOf(looks[n].rec.node, KId) != "" then [EdgeSeen(looks[n].from, looks[n].rec)] else [])
  }

  function LookAt(x: Id, rs: seq<Record>): seq<Look> {
    seq(|rs|, i requires 0 <= i < |rs| => Look(x, rs[i]))
  }

  /** All that is looked at when the entries are taken out one after the other. */
  function AllLooks(g: Graph, q: WalkQuery, popped: seq<Entry>): seq<Look> {
    if popped == [] then []
    else
      var e := popped[|popped| - 1];
      AllLooks(g, q, popped[..|popped| - 1]) +
      (if e.depth < q.maxHops then LookAt(e.id, Frontier(g, q, e.id)) else [])
  }

  function UpTo(ids: seq<Id>, n: nat): seq<Id> {
    if |ids| <= n then ids else ids[..n]
  }

  /** The seeds are never held against the budget. */
  function Room(g: Graph, q: WalkQuery, seeds: seq<Id>): nat {
    var n := |Firsts(SeedIds(g, q, seeds))|;
    if n < q.maxNodes then q.maxNodes else n
  }

  /** The seeds and then the nodes looked at, in order of first appearance. */
  function Met(g: Graph, q: WalkQuery, seeds: seq<Id>, looks: seq<Look>): seq<Id> {
    Firsts(SeedIds(g, q, seeds) + FarEnds(q, looks))
  }

  ghost predicate FirstLook(q: WalkQuery, looks: seq<Look>, y: Id, i: nat) {
    && i < |looks| && Eligible(looks[i].rec, q) && TextOf(looks[i].rec.node, KId) == y
    && forall j | 0 <= j < i :: !(Eligible(looks[j].rec, q) && TextOf(looks[j].rec.node, KId) == y)
  }

  /** The parent of a node is where it was first looked at from. */
  ghost predicate ParentsTold(q: WalkQuery, parents: map<Id, Parent>, looks: seq<Look>) {
    forall y | y in parents ::
      exists i: nat :: FirstLook(q, looks, y, i) && parents[y] == Parent(looks[i].from, looks[i].rec.kind)
  }

  /** The nodes put into the heap, in order: the seeds with their repeats, then the nodes discovered. */
  function Pushed(g: Graph, q: WalkQuery, seeds: seq<Id>, order: seq<Id>): seq<Id> {
    var ids := SeedIds(g, q, seeds);
    var n := |Firsts(ids)|;
    ids + (if n <= |order| then order[n..] else [])
  }

  /** The entry belongs to the node put in at its place, with the bonuses of the node and of the edge that led to it. */
  ghost predicate IsEntry(g: Graph, q: WalkQuery, seeds: seq<Id>, order: seq<Id>, parents: map<Id, Parent>,
                          depth: map<Id, nat>, e: Entry) {
    && e.counter < |Pushed(g, q, seeds, order)| && e.id == Pushed(g, q, seeds, order)[e.counter]
    && e.id in depth && e.depth == depth[e.id]
    && e.id in g.nodes && e.authority == -AuthorityBonus(g.nodes[e.id])
    && (if e.counter < |SeedIds(g, q, seeds)| then e.edge == 0.0
        else e.id in parents && e.edge == -EdgeBonus(PriorityList(q), parents[e.id].via))
  }

  ghost predicate Arrived(heap: seq<Entry>, popped: seq<Entry>, c: nat) {
    exists e :: (e in heap || e in popped) && e.counter == c
  }

  ghost predicate EntriesTold(g: Graph, q: WalkQuery, seeds: seq<Id>, order: seq<Id>, parents: map<Id, Parent>,
                              depth: map<Id, nat>, heap: seq<Entry>, popped: seq<Entry>, counter: nat) {
    && counter == |Pushed(g, q, seeds, order)|
    && (forall e | e in heap || e in popped :: IsEntry(g, q, seeds, order, parents, depth, e))
    && (forall c | 0 <= c < counter :: Arrived(heap, popped, c))
  }

  ghost predicate Told(g: Graph, q: WalkQuery, seeds: seq<Id>, w: Walk, h: History) {
    && w.found == Reports(h.looks)
    && w.order == UpTo(Met(g, q, seeds, h.looks), Room(g, q, seeds))
    && ParentsTold(q, w.parents, h.looks)
    && EntriesTold(g, q, seeds, w.order, w.parents, h.depth, w.heap, h.popped, w.counter)
  }

  // ---------------------------------------------------------------------------
  // First appearances
  // ---------------------------------------------------------------------------

  lemma {:induction false} FirstsAre(ids: seq<Id>)
    ensures forall x :: x in Firsts(ids) <==> x in ids
    ensures NoRepeats(Firsts(ids)) && |Firsts(ids)| <= |ids|
  {
    if ids != [] {
      var n := |ids| - 1;
      FirstsAre(ids[..n]);
      assert ids == ids[..n] + [ids[n]];
    }
  }

  lemma FirstsSnoc(ids: seq<Id>, x: Id)
    ensures Firsts(ids + [x]) == Firsts(ids) + (if x in ids then [] else [x])
  {
    assert (ids + [x])[..|ids|] == ids;
  }

  lemma {:induction false} FirstsOfPrefix(a: seq<Id>, b: seq<Id>)
    ensures Firsts(a) <= Firsts(a + b)
    decreases |b|
  {
    if b == [] {
      assert a + b == a;
    } else {
      var n := |b| - 1;
      FirstsOfPrefix(a, b[..n]);
      assert a + b == (a + b[..n]) + [b[n]];
      FirstsSnoc(a + b[..n], b[n]);
    }
  }

  lemma FarEndsSnoc(q: WalkQuery, looks: seq<Look>, l: Look)
    ensures FarEnds(q, looks + [l]) ==
            FarEnds(q, looks) + (if Eligible(l.rec, q) then [TextOf(l.rec.node, KId)] else [])
    ensures Reports(looks + [l]) ==
            Reports(looks) + (if TextOf(l.rec.node, KId) != "" then [EdgeSeen(l.from, l.rec)] else [])
  {
    assert (looks + [l])[..|looks|] == looks;
  }

  lemma {:induction false} FarEndHasLook(q: WalkQuery, looks: seq<Look>, y: Id) returns (i: nat)
    requires y in FarEnds(q, looks)
    ensures i < |looks| && Eligible(looks[i].rec, q) && TextOf(looks[i].rec.node, KId) == y
  {
    hide Eligible, TextOf;
    var n := |looks| - 1;
    if y in FarEnds(q, looks[..n]) {
      i := FarEndHasLook(q, looks[..n], y);
    } else {
      i := n;
    }
  }

  lemma {:induction false} LookHasFarEnd(q: WalkQuery, looks: seq<Look>, i: nat)
    requires i < |looks| && Eligible(looks[i].rec, q)
    ensures TextOf(looks[i].rec.node, KId) in FarEnds(q, looks)
  {
    hide Eligible, TextOf;
    var n := |looks| - 1;
    if i < n { LookHasFarEnd(q, looks[..n], i); }
  }

  lemma FarEndsAre(q: WalkQuery, looks: seq<Look>, y: Id)
    ensures y in FarEnds(q, looks) <==>
            exists i :: 0 <= i < |looks| && Eligible(looks[i].rec, q) && TextOf(looks[i].rec.node, KId) == y
  {
    hide Eligible, TextOf, FarEnds;
    if y in FarEnds(q, looks) {
      var i := FarEndHasLook(q, looks, y);
    }
    if i :| 0 <= i < |looks| && Eligible(looks[i].rec, q) && TextOf(looks[i].rec.node, KId) == y {
      LookHasFarEnd(q, looks, i);
    }
  }

  /** One look more: one node more, if it may be followed to and was not met before. */
  lemma MetSnoc(g: Graph, q: WalkQuery, seeds: seq<Id>, looks: seq<Look>, l: Look)
    ensures var y := TextOf(l.rec.node, KId);
            Met(g, q, seeds, looks + [l]) ==
            Met(g, q, seeds, looks) + (if Eligible(l.rec, q) && y !in Met(g, q, seeds, looks) then [y] else [])
  {
    hide Eligible, TextOf, Firsts, FarEnds, SeedIds;
    var ids, far := SeedIds(g, q, seeds), FarEnds(q, looks);
    var y := TextOf(l.rec.node, KId);
    FarEndsSnoc(q, looks, l);
    FirstsAre(ids + far);
    if Eligible(l.rec, q) {
      assert ids + (far + [y]) == (ids + far) + [y];
      FirstsSnoc(ids + far, y);
    } else {
      assert far + [] == far;
    }
    assert Met(g, q, seeds, looks) + [] == Met(g, q, seeds, looks);
  }

  lemma MetHasSeeds(g: Graph, q: WalkQuery, seeds: seq<Id>, looks: seq<Look>)
    ensures Firsts(SeedIds(g, q, seeds)) <= Met(g, q, seeds, looks)
    ensures |Firsts(SeedIds(g, q, seeds))| <= |UpTo(Met(g, q, seeds, looks), Room(g, q, seeds))|
    ensures NoRepeats(Met(g, q, seeds, looks))
  {
    hide Firsts, SeedIds, FarEnds;
    FirstsOfPrefix(SeedIds(g, q, seeds), FarEnds(q, looks));
    FirstsAre(SeedIds(g, q, seeds) + FarEnds(q, looks));
  }

  // ---------------------------------------------------------------------------
  // What each step keeps
  // ---------------------------------------------------------------------------

  lemma {:induction false} ParentsStayTold(q: WalkQuery, parents: map<Id, Parent>, looks: seq<Look>, l: Look)
    requires ParentsTold(q, parents, looks)
    ensures ParentsTold(q, parents, looks + [l])
  {
    hide Eligible, TextOf;
    forall y | y in parents
      ensures exists i: nat ::
                FirstLook(q, looks + [l], y, i)
                && parents[y] == Parent((looks + [l])[i].from, (looks + [l])[i].rec.kind)
    {
      var i: nat :| FirstLook(q, looks, y, i) && parents[y] == Parent(looks[i].from, looks[i].rec.kind);
      assert FirstLook(q, looks + [l], y, i);
    }
  }

  function Noted(w: Walk, x: Id, r: Record): Walk {
    w.(found := w.found + (if TextOf(r.node, KId) != "" then [EdgeSeen(x, r)] else []))
  }

  function Looked(h: History, x: Id, r: Record): History {
    h.(looks := h.looks + [Look(x, r)])
  }

  /** A look that brings no node: none that may be followed to, one already kept, or the budget is used up. */
  lemma LookKeepsTold(g: Graph, q: WalkQuery, seeds: seq<Id>, w: Walk, h: History, x: Id, r: Record)
    requires Told(g, q, seeds, w, h)
    requires !Eligible(r, q) || TextOf(r.node, KId) in w.order || |w.order| >= q.maxNodes
    ensures Told(g, q, seeds, Noted(w, x, r), Looked(h, x, r))
    ensures w.order == Met(g, q, seeds, h.looks) && (!Eligible(r, q) || TextOf(r.node, KId) in w.order) ==>
              w.order == Met(g, q, seeds, Looked(h, x, r).looks)
  {
    hide Eligible, TextOf, Met, SeedIds, Firsts, FarEnds, Reports, EntriesTold, ParentsTold, EdgeSeen;
    var l := Look(x, r);
    FarEndsSnoc(q, h.looks, l);
    MetSnoc(g, q, seeds, h.looks, l);
    MetHasSeeds(g, q, seeds, h.looks);
    ParentsStayTold(q, w.parents, h.looks, l);
    var met, room := Met(g, q, seeds, h.looks), Room(g, q, seeds);
    assert forall y | y in w.order :: y in met;
    assert |w.order| >= q.maxNodes ==> |met| >= room;
    assert UpTo(Met(g, q, seeds, h.looks + [l]), room) == w.order;
  }

  lemma PushedGrows(g: Graph, q: WalkQuery, seeds: seq<Id>, order: seq<Id>, y: Id)
    requires |Firsts(SeedIds(g, q, seeds))| <= |order|
    ensures Pushed(g, q, seeds, order + [y]) == Pushed(g, q, seeds, order) + [y]
  {
    hide Firsts, SeedIds;
    var n := |Firsts(SeedIds(g, q, seeds))|;
    assert (order + [y])[n..] == order[n..] + [y];
  }

  lemma PushedAreKept(g: Graph, q: WalkQuery, seeds: seq<Id>, looks: seq<Look>)
    ensures var order := UpTo(Met(g, q, seeds, looks), Room(g, q, seeds));
            forall x | x in Pushed(g, q, seeds, order) :: x in order
  {
    hide Firsts, SeedIds, FarEnds;
    var order := UpTo(Met(g, q, seeds, looks), Room(g, q, seeds));
    MetHasSeeds(g, q, seeds, looks);
    FirstsAre(SeedIds(g, q, seeds));
    assert Firsts(SeedIds(g, q, seeds)) <= order;
    forall x | x in SeedIds(g, q, seeds) ensures x in order {
      assert x in Firsts(SeedIds(g, q, seeds));
    }
  }

  lemma ParentsGrowTold(q: WalkQuery, parents: map<Id, Parent>, looks: seq<Look>, l: Look)
    requires ParentsTold(q, parents, looks)
    requires Eligible(l.rec, q) && TextOf(l.rec.node, KId) !in FarEnds(q, looks)
    ensures ParentsTold(q, parents[TextOf(l.rec.node, KId) := Parent(l.from, l.rec.kind)], looks + [l])
  {
    hide Eligible, TextOf, FarEnds;
    ParentsStayTold(q, parents, looks, l);
    var y := TextOf(l.rec.node, KId);
    FarEndsAre(q, looks, y);
    assert FirstLook(q, looks + [l], y, |looks|);
  }

  lemma EntriesGrowTold(g: Graph, q: WalkQuery, seeds: seq<Id>, order: seq<Id>, parents: map<Id, Parent>,
                        depth: map<Id, nat>, heap: seq<Entry>, popped: seq<Entry>, counter: nat,
                        y: Id, p: Parent, d: nat, e: Entry)
    requires EntriesTold(g, q, seeds, order, parents, depth, heap, popped, counter)
    requires |Firsts(SeedIds(g, q, seeds))| <= |order| && y !in order && y in g.nodes
    requires forall x | x in Pushed(g, q, seeds, order) :: x in order
    requires e == Entry(d, -AuthorityBonus(g.nodes[y]), -EdgeBonus(PriorityList(q), p.via), counter, y)
    ensures EntriesTold(g, q, seeds, order + [y], parents[y := p], depth[y := d], heap + [e], popped, counter + 1)
  {
    hide Firsts, SeedIds, Pushed, AuthorityBonus, EdgeBonus, PriorityList;
    PushedGrows(g, q, seeds, order, y);
    var ids := Pushed(g, q, seeds, order);
    SeedsArePushed(g, q, seeds, order);
    forall o | o in heap + [e] || o in popped
      ensures IsEntry(g, q, seeds, order + [y], parents[y := p], depth[y := d], o)
    {
      if o != e {
        assert o in heap || o in popped;
        assert IsEntry(g, q, seeds, order, parents, depth, o);
        assert ids[o.counter] in ids;
      }
    }
    forall c | 0 <= c < counter + 1 ensures Arrived(heap + [e], popped, c) {
      if c < counter {
        assert Arrived(heap, popped, c);
        var o :| (o in heap || o in popped) && o.counter == c;
        assert o in heap + [e] || o in popped;
      } else {
        assert e in heap + [e] && e.counter == c;
      }
    }
  }

  lemma SeedsArePushed(g: Graph, q: WalkQuery, seeds: seq<Id>, order: seq<Id>)
    ensures SeedIds(g, q, seeds) <= Pushed(g, q, seeds, order)
  {
    hide Firsts, SeedIds;
  }

  /** A look that brings a new node. */
  lemma DiscoveryKeepsTold(g: Graph, q: WalkQuery, seeds: seq<Id>, w: Walk, h: History, x: Id, d: nat, r: Record)
    requires Told(g, q, seeds, w, h)
    requires Eligible(r, q) && TextOf(r.node, KId) !in w.order && |w.order| < q.maxNodes
    requires TextOf(r.node, KId) in g.nodes && r.node == g.nodes[TextOf(r.node, KId)]
    ensures Told(g, q, seeds, AfterDiscovery(Noted(w, x, r), q, x, d, r),
                 Looked(h, x, r).(depth := h.depth[TextOf(r.node, KId) := d + 1]))
    ensures w.order + [TextOf(r.node, KId)] == Met(g, q, seeds, Looked(h, x, r).looks)
  {
    hide Eligible, TextOf, Met, SeedIds, Firsts, FarEnds, Reports, EntriesTold, ParentsTold, EdgeSeen, Pushed,
      AuthorityBonus, EdgeBonus, PriorityList, Scored;
    var l, y := Look(x, r), TextOf(r.node, KId);
    FarEndsSnoc(q, h.looks, l);
    MetSnoc(g, q, seeds, h.looks, l);
    MetHasSeeds(g, q, seeds, h.looks);
    PushedAreKept(g, q, seeds, h.looks);
    assert w.order == Met(g, q, seeds, h.looks);
    NotMetIsNotSeen(g, q, seeds, h.looks, y);
    ParentsGrowTold(q, w.parents, h.looks, l);
    EntriesGrowTold(g, q, seeds, w.order, w.parents, h.depth, w.heap, h.popped, w.counter, y, Parent(x, r.kind), d + 1,
      Entry(d + 1, -AuthorityBonus(r.node), -EdgeBonus(PriorityList(q), r.kind), w.counter, y));
  }

  lemma NotMetIsNotSeen(g: Graph, q: WalkQuery, seeds: seq<Id>, looks: seq<Look>, y: Id)
    requires y !in Met(g, q, seeds, looks)
    ensures y !in FarEnds(q, looks)
  {
    hide Firsts, SeedIds, FarEnds;
    FirstsAre(SeedIds(g, q, seeds) + FarEnds(q, looks));
  }

  lemma PopKeepsTold(g: Graph, q: WalkQuery, seeds: seq<Id>, w: Walk, h: History, e: Entry, rest: seq<Entry>)
    requires Told(g, q, seeds, w, h) && Popped(w.heap, e, rest)
    ensures Told(g, q, seeds, w.(heap := rest), AfterPop(h, e))
  {
    hide Met, SeedIds, Firsts, FarEnds, Reports, ParentsTold, Pushed, IsEntry, Popped, Room, UpTo;
    PoppedElements(w.heap, e, rest);
    forall c | 0 <= c < w.counter ensures Arrived(rest, h.popped + [e], c) {
      assert Arrived(w.heap, h.popped, c);
      var o :| (o in w.heap || o in h.popped) && o.counter == c;
      assert o in rest || o in h.popped + [e];
    }
  }

  // ---------------------------------------------------------------------------
  // Seeding
  // ---------------------------------------------------------------------------

  /** Every admissible seed is put in, a repeated one again; nothing has been looked at. */
  ghost predicate SeedsTold(g: Graph, q: WalkQuery, seeds: seq<Id>, w: Walk) {
    var ids := SeedIds(g, q, seeds);
    && w.order == Firsts(ids) && |w.heap| == w.counter == |ids|
    && forall i | 0 <= i < |ids| ::
         ids[i] in g.nodes && w.heap[i] == Entry(0, -AuthorityBonus(g.nodes[ids[i]]), 0.0, i, ids[i])
  }

  lemma NoSeedsTold(g: Graph, q: WalkQuery)
    ensures SeedsTold(g, q, [], NOTHING)
  {
  }

  lemma SeedSkippedTold(g: Graph, q: WalkQuery, seeds: seq<Id>, w: Walk, id: Id)
    requires SeedsTold(g, q, seeds, w) && !AdmissibleId(g, q, id)
    ensures SeedsTold(g, q, seeds + [id], w)
  {
    hide AdmissibleId, AuthorityBonus, Firsts;
    assert (seeds + [id])[..|seeds|] == seeds;
    assert SeedIds(g, q, seeds) + [] == SeedIds(g, q, seeds);
  }

  lemma SeedKeptTold(g: Graph, q: WalkQuery, seeds: seq<Id>, w: Walk, id: Id)
    requires SeedsTold(g, q, seeds, w) && AdmissibleId(g, q, id) && w.kept.Keys == Ids(w.order)
    ensures SeedsTold(g, q, seeds + [id], AfterSeed(w, id, g.nodes[id]))
  {
    hide Admissible, AuthorityBonus, Firsts, Scored;
    var ids := SeedIds(g, q, seeds);
    assert (seeds + [id])[..|seeds|] == seeds;
    assert SeedIds(g, q, seeds + [id]) == ids + [id];
    FirstsSnoc(ids, id);
    FirstsAre(ids);
    assert id in w.kept <==> id in ids;
    assert Firsts(ids) + [] == Firsts(ids);
  }

  lemma SeedsAreTold(g: Graph, q: WalkQuery, seeds: seq<Id>, w: Walk, h: History)
    requires SeedsTold(g, q, seeds, w) && w.found == [] && w.parents == map[] && w.kept.Keys == Ids(w.order)
    requires h == History(map x | x in w.kept :: 0, {}, 0, [], [])
    ensures Told(g, q, seeds, w, h)
  {
    hide AuthorityBonus, Firsts, SeedIds;
    var ids := SeedIds(g, q, seeds);
    assert ids + [] == ids && w.order[|w.order|..] == [];
    assert Pushed(g, q, seeds, w.order) == ids;
    FirstsAre(ids);
    forall e | e in w.heap ensures IsEntry(g, q, seeds, w.order, w.parents, h.depth, e) {
      var i :| 0 <= i < |w.heap| && w.heap[i] == e;
      assert ids[i] in ids && ids[i] in w.order;
    }
    forall c | 0 <= c < w.counter ensures Arrived(w.heap, [], c) {
      assert w.heap[c] in w.heap && w.heap[c].counter == c;
    }
    hide EntriesTold;
    NothingLookedAt(q);
  }

  lemma NothingLookedAt(q: WalkQuery)
    ensures FarEnds(q, []) == [] && Reports([]) == []
  {
  }

  // ---------------------------------------------------------------------------
  // How far the last node was looked at
  // ---------------------------------------------------------------------------

  /** The first `k` records of `x`. */
  function LooksFrom(g: Graph, q: WalkQuery, x: Id, before: seq<Look>, k: nat): seq<Look>
    requires k <= |Frontier(g, q, x)|
  {
    before + LookAt(x, Frontier(g, q, x)[..k])
  }

  /** The node may be followed to and is not kept, but the budget has no room for it. */
  ghost predicate Refused(q: WalkQuery, order: seq<Id>, r: Record) {
    |order| >= q.maxNodes && Eligible(r, q) && TextOf(r.node, KId) !in order
  }

  /** Looking at the records of `x` stopped at record `k - 1`, the first that was refused. */
  ghost predicate StoppedAt(g: Graph, q: WalkQuery, seeds: seq<Id>, x: Id, before: seq<Look>, looks: seq<Look>,
                            order: seq<Id>, k: nat) {
    && 0 < k <= |Frontier(g, q, x)| && looks == LooksFrom(g, q, x, before, k)
    && order == Met(g, q, seeds, LooksFrom(g, q, x, before, k - 1)) && Refused(q, order, Frontier(g, q, x)[k - 1])
  }

  /** All records of `x` were looked at and their nodes kept, or those up to the first that was refused. */
  ghost predicate LookedFrom(g: Graph, q: WalkQuery, seeds: seq<Id>, x: Id, before: seq<Look>, looks: seq<Look>,
                             order: seq<Id>) {
    || (looks == before + LookAt(x, Frontier(g, q, x)) && order == Met(g, q, seeds, looks))
    || exists k: nat :: StoppedAt(g, q, seeds, x, before, looks, order, k)
  }

  /**
   * Every entry but the last was taken out with room left in the budget, and its records were all looked at; the
   * last one's too, unless the budget stopped it.
   */
  ghost predicate LookedThrough(g: Graph, q: WalkQuery, seeds: seq<Id>, popped: seq<Entry>, looks: seq<Look>,
                                order: seq<Id>) {
    if popped == [] then looks == [] && order == Met(g, q, seeds, [])
    else
      var n := |popped| - 1;
      var before, e := AllLooks(g, q, popped[..n]), popped[n];
      && |Met(g, q, seeds, before)| < q.maxNodes
      && if e.depth < q.maxHops then LookedFrom(g, q, seeds, e.id, before, looks, order)
         else looks == before && order == Met(g, q, seeds, before)
  }

  lemma LookAtSnoc(x: Id, rs: seq<Record>, k: nat)
    requires k < |rs|
    ensures LookAt(x, rs[..k + 1]) == LookAt(x, rs[..k]) + [Look(x, rs[k])]
    ensures LookAt(x, rs[..|rs|]) == LookAt(x, rs)
  {
    assert rs[..|rs|] == rs;
  }

  lemma LookedOn(g: Graph, q: WalkQuery, x: Id, before: seq<Look>, k: nat)
    requires k < |Frontier(g, q, x)|
    ensures LooksFrom(g, q, x, before, k) + [Look(x, Frontier(g, q, x)[k])] == LooksFrom(g, q, x, before, k + 1)
  {
    hide Frontier;
    LookAtSnoc(x, Frontier(g, q, x), k);
  }

  lemma StoppedHere(g: Graph, q: WalkQuery, seeds: seq<Id>, x: Id, before: seq<Look>, looks: seq<Look>,
                    order: seq<Id>, k: nat)
    requires k < |Frontier(g, q, x)| && looks == LooksFrom(g, q, x, before, k) + [Look(x, Frontier(g, q, x)[k])]
    requires order == Met(g, q, seeds, LooksFrom(g, q, x, before, k)) && Refused(q, order, Frontier(g, q, x)[k])
    ensures LookedFrom(g, q, seeds, x, before, looks, order)
  {
    LookedOn(g, q, x, before, k);
    hide Frontier, Refused, LooksFrom, Met;
    assert StoppedAt(g, q, seeds, x, before, looks, order, k + 1);
  }

  lemma AllLookedAt(g: Graph, q: WalkQuery, seeds: seq<Id>, x: Id, before: seq<Look>, looks: seq<Look>,
                    order: seq<Id>)
    requires looks == LooksFrom(g, q, x, before, |Frontier(g, q, x)|) && order == Met(g, q, seeds, looks)
    ensures LookedFrom(g, q, seeds, x, before, looks, order)
  {
    hide Frontier, Met;
    assert Frontier(g, q, x)[..|Frontier(g, q, x)|] == Frontier(g, q, x);
  }

  lemma NothingLooked(g: Graph, q: WalkQuery, x: Id, looks: seq<Look>)
    ensures looks == LooksFrom(g, q, x, looks, 0)
  {
  }

  lemma PoppedLooks(g: Graph, q: WalkQuery, seeds: seq<Id>, popped: seq<Entry>, e: Entry, looks: seq<Look>,
                    order: seq<Id>)
    requires |Met(g, q, seeds, AllLooks(g, q, popped))| < q.maxNodes
    requires if e.depth < q.maxHops then LookedFrom(g, q, seeds, e.id, AllLooks(g, q, popped), looks, order)
             else looks == AllLooks(g, q, popped) && order == Met(g, q, seeds, looks)
    ensures LookedThrough(g, q, seeds, popped + [e], looks, order)
  {
    hide AllLooks, LookedFrom, Met;
    assert (popped + [e])[..|popped|] == popped;
  }

  /** While there is room in the budget nothing was left out. */
  lemma RoomMeansAll(g: Graph, q: WalkQuery, seeds: seq<Id>, popped: seq<Entry>, looks: seq<Look>, order: seq<Id>)
    requires LookedThrough(g, q, seeds, popped, looks, order)
    ensures |order| < q.maxNodes ==> looks == AllLooks(g, q, popped) && order == Met(g, q, seeds, looks)
  {
    hide Met, Frontier, Eligible;
    if popped != [] {
      var n := |popped| - 1;
      assert AllLooks(g, q, popped[..n]) + [] == AllLooks(g, q, popped[..n]);
    }
  }

  lemma {:induction false} OrderCounts(order: seq<Id>)
    requires NoRepeats(order)
    ensures |Ids(order)| == |order|
  {
    if order != [] {
      var n := |order| - 1;
      OrderCounts(order[..n]);
      assert order == order[..n] + [order[n]];
      assert Ids(order) == Ids(order[..n]) + {order[n]};
      assert order[n] !in Ids(order[..n]);
    }
  }

  lemma KeptCounts(g: Graph, q: WalkQuery, seeds: seq<Id>, w: Walk, h: History)
    requires Sound(g, q, seeds, w, h)
    ensures |w.order| == |w.kept| && w.kept.Keys == Ids(w.order)
  {
    hide Layered, HeapOk, ParentsOk, FoundOk, Scored, ScoreOf, AdmissibleId, TypedHops, TypedStart;
    OrderCounts(w.order);
    assert |w.kept| == |w.kept.Keys|;
  }

  lemma LookedIsSound(g: Graph, q: WalkQuery, seeds: seq<Id>, w: Walk, first: History, h: History, x: Id, r: Record)
    requires Sound(g, q, seeds, w, h) && HistoryGrows(first, h)
    ensures Sound(g, q, seeds, w, Looked(h, x, r)) && HistoryGrows(first, Looked(h, x, r))
  {
    hide Layered, ParentsOk, KeptOk, FoundOk, Arrivals, Before, TypedHops, TypedStart;
  }

  // ---------------------------------------------------------------------------
  // What the whole walk tells
  // ---------------------------------------------------------------------------

  /** What a walk leaves: the nodes in the order kept, edges and parents; and how it came to them. */
  datatype WalkResult = WalkResult(
    order: seq<Id>, edges: seq<FoundEdge>, parents: map<Id, Parent>,
    depth: map<Id, nat>, popped: seq<Entry>, looks: seq<Look>)

  /**
   * The result of a walk, read off the entries taken out of the heap and the records looked at. The entries come
   * best first and are those of the nodes put in; whatever was put in and not taken out comes after all of them.
   * The records looked at are those of the entries within the hop limit, in order, up to where the budget stopped
   * the walk. Kept are the seeds and the nodes met, in order of first appearance, as far as the budget goes;
   * reported is one edge for each look; and the parent of a node is where it was first looked at from.
   */
  ghost predicate Explains(g: Graph, q: WalkQuery, seeds: seq<Id>, o: WalkResult) {
    && BestFirst(o.popped)
    && (forall e | e in o.popped :: IsEntry(g, q, seeds, o.order, o.parents, o.depth, e))
    && (forall e, p | IsEntry(g, q, seeds, o.order, o.parents, o.depth, e) && e !in o.popped && p in o.popped ::
          Before(p, e))
    && (|o.order| < q.maxNodes ==>
          forall e | IsEntry(g, q, seeds, o.order, o.parents, o.depth, e) :: e in o.popped)
    && LookedThrough(g, q, seeds, o.popped, o.looks, o.order)
    && o.order == UpTo(Met(g, q, seeds, o.looks), Room(g, q, seeds))
    && o.edges == Reports(o.looks)
    && ParentsTold(q, o.parents, o.looks)
    && (forall y | y in o.parents ::
          y in o.depth && o.parents[y].id in o.depth && o.depth[y] == o.depth[o.parents[y].id] + 1)
    && (forall c | 0 <= c < |Pushed(g, q, seeds, o.order)| ::
          Placed(g, q, seeds, o.order, o.parents, o.depth, c))
  }

  ghost predicate Placed(g: Graph, q: WalkQuery, seeds: seq<Id>, order: seq<Id>, parents: map<Id, Parent>,
                         depth: map<Id, nat>, c: nat) {
    exists e :: IsEntry(g, q, seeds, order, parents, depth, e) && e.counter == c
  }

  /** The walk between two expansions. */
  ghost predicate Running(g: Graph, q: WalkQuery, seeds: seq<Id>, w: Walk, h: History) {
    && Sound(g, q, seeds, w, h) && Told(g, q, seeds, w, h)
    && LookedThrough(g, q, seeds, h.popped, h.looks, w.order)
    && (|w.kept| >= q.maxNodes || Closed(TypedHops(g, q), q.maxHops, h.depth, h.expanded))
    && (|w.kept| <= q.maxNodes || w.kept.Keys == TypedStart(g, q, seeds))
  }

  /** A walk that has come to its end, with all that is known of its result. */
  ghost predicate Finished(g: Graph, q: WalkQuery, seeds: seq<Id>, o: WalkResult) {
    && BoundedWalk(TypedHops(g, q), TypedStart(g, q, seeds), q.maxHops, q.maxNodes, o.depth)
    && Ids(o.order) == o.depth.Keys && o.parents.Keys == o.depth.Keys - TypedStart(g, q, seeds)
    && TypedStart(g, q, seeds) <= o.depth.Keys
    && (|o.order| <= q.maxNodes || Ids(o.order) == TypedStart(g, q, seeds))
    && Explains(g, q, seeds, o)
  }

  lemma OneEntryEach(g: Graph, q: WalkQuery, seeds: seq<Id>, order: seq<Id>, parents: map<Id, Parent>,
                     depth: map<Id, nat>, e: Entry, o: Entry)
    requires IsEntry(g, q, seeds, order, parents, depth, e) && IsEntry(g, q, seeds, order, parents, depth, o)
    requires e.counter == o.counter
    ensures e == o
  {
    hide Pushed, SeedIds, AuthorityBonus, EdgeBonus, PriorityList;
  }

  lemma WaitingOrTaken(g: Graph, q: WalkQuery, seeds: seq<Id>, w: Walk, h: History, e: Entry)
    requires EntriesTold(g, q, seeds, w.order, w.parents, h.depth, w.heap, h.popped, w.counter)
    requires IsEntry(g, q, seeds, w.order, w.parents, h.depth, e)
    ensures e in w.heap || e in h.popped
  {
    assert Arrived(w.heap, h.popped, e.counter);
    var o :| (o in w.heap || o in h.popped) && o.counter == e.counter;
    OneEntryEach(g, q, seeds, w.order, w.parents, h.depth, e, o);
  }

  lemma ParentsAreNearer(g: Graph, q: WalkQuery, seeds: seq<Id>, w: Walk, h: History)
    requires Sound(g, q, seeds, w, h)
    ensures forall y | y in w.parents ::
              y in h.depth && w.parents[y].id in h.depth && h.depth[y] == h.depth[w.parents[y].id] + 1
  {
    hide Layered, HeapOk, KeptOk, FoundOk, Discovered, TypedStart, TypedHops;
  }

  lemma WalkIsExplained(g: Graph, q: WalkQuery, seeds: seq<Id>, w: Walk, h: History)
    requires Sound(g, q, seeds, w, h) && Told(g, q, seeds, w, h)
    requires LookedThrough(g, q, seeds, h.popped, h.looks, w.order)
    requires |w.kept| >= q.maxNodes || w.heap == []
    ensures Explains(g, q, seeds, WalkResult(w.order, w.found, w.parents, h.depth, h.popped, h.looks))
  {
    hide Layered, ParentsOk, KeptOk, FoundOk, Arrivals, Before, TypedHops, TypedStart, IsEntry, LookedThrough, Met,
      Reports, ParentsTold, Room, Pushed;
    KeptCounts(g, q, seeds, w, h);
    forall e | IsEntry(g, q, seeds, w.order, w.parents, h.depth, e) ensures e in w.heap || e in h.popped {
      WaitingOrTaken(g, q, seeds, w, h, e);
    }
    forall c | 0 <= c < |Pushed(g, q, seeds, w.order)| ensures Placed(g, q, seeds, w.order, w.parents, h.depth, c) {
      assert Arrived(w.heap, h.popped, c);
      var e :| (e in w.heap || e in h.popped) && e.counter == c;
      assert IsEntry(g, q, seeds, w.order, w.parents, h.depth, e);
    }
    ParentsAreNearer(g, q, seeds, w, h);
  }

  lemma SeedsStart(g: Graph, q: WalkQuery, seeds: seq<Id>, w: Walk) returns (h: History)
    requires Seeded(g, q, seeds, w) && SeedsTold(g, q, seeds, w)
    ensures Running(g, q, seeds, w, h) && w.kept.Keys <= g.nodes.Keys
  {
    h := SeedsAreSound(g, q, seeds, w);
    NothingExpanded(TypedHops(g, q), q.maxHops, h.depth);
    SeededIds(g, q, seeds, w);
    SoundDomain(g, q, seeds, w, h);
    SeedsAreMet(g, q, seeds);
    hide Told, TypedStart, Arrivals, Sound, TypedHops, Closed, Met, Firsts, SeedIds;
    SeedsAreTold(g, q, seeds, w, h);
  }

  lemma SeedsAreMet(g: Graph, q: WalkQuery, seeds: seq<Id>)
    ensures Met(g, q, seeds, []) == Firsts(SeedIds(g, q, seeds))
  {
    hide Firsts, SeedIds;
    assert SeedIds(g, q, seeds) + [] == SeedIds(g, q, seeds);
  }

  lemma SeededIds(g: Graph, q: WalkQuery, seeds: seq<Id>, w: Walk)
    requires Seeded(g, q, seeds, w)
    ensures w.kept.Keys == Ids(w.order)
  {
    hide TypedStart, Arrivals, AdmissibleId, Scored;
  }

  lemma SamePopped(h: History, h': History)
    requires HistoryGrows(h, h')
    ensures h'.popped == h.popped
  {
  }

  lemma AllLookedSoFar(g: Graph, q: WalkQuery, seeds: seq<Id>, w: Walk, h: History)
    requires Sound(g, q, seeds, w, h) && Told(g, q, seeds, w, h) && |w.kept| < q.maxNodes
    requires LookedThrough(g, q, seeds, h.popped, h.looks, w.order)
    ensures h.looks == AllLooks(g, q, h.popped) && w.order == Met(g, q, seeds, h.looks) && |w.order| < q.maxNodes
  {
    hide Sound, Told, LookedThrough, AllLooks, Met;
    KeptCounts(g, q, seeds, w, h);
    RoomMeansAll(g, q, seeds, h.popped, h.looks, w.order);
  }

  lemma BudgetCounts(nodes: map<Id, Props>, start: set<Id>, maxNodes: nat)
    requires start <= nodes.Keys && (|nodes| <= maxNodes || nodes.Keys == start)
    ensures |nodes| <= maxNodes <==> |start| <= maxNodes
  {
    assert |nodes| == |nodes.Keys|;
    SubsetCounts(start, nodes.Keys);
  }

  lemma {:induction false} SubsetCounts(a: set<Id>, b: set<Id>)
    requires a <= b
    ensures |a| <= |b|
  {
    assert b == a + (b - a);
  }

  /** What holds when the loop ends, for want of entries or of room. */
  lemma WalkEnds(g: Graph, q: WalkQuery, seeds: seq<Id>, w: Walk, h: History)
    requires Running(g, q, seeds, w, h) && (w.heap == [] || |w.kept| >= q.maxNodes)
    ensures Sound(g, q, seeds, w, h)
    ensures BoundedWalk(TypedHops(g, q), TypedStart(g, q, seeds), q.maxHops, q.maxNodes, h.depth)
    ensures w.kept.Keys == h.depth.Keys && TypedStart(g, q, seeds) <= w.kept.Keys
    ensures w.parents.Keys == w.kept.Keys - TypedStart(g, q, seeds)
    ensures |w.kept| <= q.maxNodes || w.kept.Keys == TypedStart(g, q, seeds)
    ensures |w.kept| <= q.maxNodes <==> |TypedStart(g, q, seeds)| <= q.maxNodes
    ensures KeptOk(g, q, w.kept, w.order, w.parents) && FoundOk(g, w.found)
    ensures Finished(g, q, seeds, WalkResult(w.order, w.found, w.parents, h.depth, h.popped, h.looks))
  {
    hide Sound, Told, LookedThrough, Closed, TypedHops, TypedStart, BoundedWalk, KeptOk, FoundOk, Explains, Ids;
    KeptCounts(g, q, seeds, w, h);
    SoundDomain(g, q, seeds, w, h);
    SoundParts(g, q, seeds, w, h);
    SoundIsBounded(g, q, seeds, w, h);
    WalkIsExplained(g, q, seeds, w, h);
    BudgetCounts(w.kept, TypedStart(g, q, seeds), q.maxNodes);
  }
}
