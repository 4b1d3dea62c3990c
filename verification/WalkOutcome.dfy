/** What a finished walk tells about itself, and that it leaves no choice: one store, query and seeds, one result. */
module WalkOutcome {
  import opened Wrappers
  import opened Ontology
  import opened StoreModel
  import opened Reachability
  import opened TypedWalk
  import opened WalkState
  import opened WalkTrace

  // ---------------------------------------------------------------------------
  // Taken out of the heap
  // ---------------------------------------------------------------------------

  /** What was taken out is kept, at its depth; and if there was room left, all that is kept was taken out. */
  lemma TakenAreKept(g: Graph, q: WalkQuery, seeds: seq<Id>, o: WalkResult)
    requires Finished(g, q, seeds, o)
    ensures forall e | e in o.popped :: e.id in o.order && e.depth == o.depth[e.id]
    ensures |o.order| < q.maxNodes ==> forall x | x in o.order :: exists e :: e in o.popped && e.id == x
  {
    hide BoundedWalk, TypedHops, TypedStart, LookedThrough, Pushed, Reports, ParentsTold, Met, Room;
    forall e | e in o.popped ensures e.id in o.order {
      assert IsEntry(g, q, seeds, o.order, o.parents, o.depth, e);
      assert e.id in Ids(o.order);
    }
    if |o.order| < q.maxNodes {
      forall x | x in o.order ensures exists e :: e in o.popped && e.id == x {
        KeptIsPushed(g, q, seeds, o.looks, o.order, x);
        var c: nat :| c < |Pushed(g, q, seeds, o.order)| && Pushed(g, q, seeds, o.order)[c] == x;
        assert Placed(g, q, seeds, o.order, o.parents, o.depth, c);
        var e :| IsEntry(g, q, seeds, o.order, o.parents, o.depth, e) && e.counter == c;
        assert e in o.popped;
      }
    }
  }

  lemma KeptIsPushed(g: Graph, q: WalkQuery, seeds: seq<Id>, looks: seq<Look>, order: seq<Id>, x: Id)
    requires order == UpTo(Met(g, q, seeds, looks), Room(g, q, seeds)) && x in order
    ensures x in Pushed(g, q, seeds, order)
  {
    hide Firsts, SeedIds, FarEnds;
    var ids := SeedIds(g, q, seeds);
    MetHasSeeds(g, q, seeds, looks);
    FirstsAre(ids);
    var n := |Firsts(ids)|;
    assert order == order[..n] + order[n..];
    assert order[..n] == Firsts(ids);
  }

  // ---------------------------------------------------------------------------
  // Where parents come from
  // ---------------------------------------------------------------------------

  /** Looks made while entry `k` is expanded. */
  lemma {:induction false} LookBelongs(g: Graph, q: WalkQuery, popped: seq<Entry>, i: nat) returns (k: nat)
    requires i < |AllLooks(g, q, popped)|
    ensures k < |popped| && popped[k].depth < q.maxHops
    ensures |AllLooks(g, q, popped[..k])| <= i < |AllLooks(g, q, popped[..k + 1])|
    ensures AllLooks(g, q, popped)[i].from == popped[k].id
    ensures AllLooks(g, q, popped)[i].rec in Frontier(g, q, popped[k].id)
    decreases |popped|
  {
    hide Frontier;
    var n := |popped| - 1;
    if i < |AllLooks(g, q, popped[..n])| {
      k := LookBelongs(g, q, popped[..n], i);
      assert popped[..n][..k] == popped[..k] && popped[..n][..k + 1] == popped[..k + 1];
    } else {
      k := n;
      assert popped[..n + 1] == popped;
    }
  }

  lemma {:induction false} LooksGrow(g: Graph, q: WalkQuery, popped: seq<Entry>, k: nat)
    requires k <= |popped|
    ensures AllLooks(g, q, popped[..k]) <= AllLooks(g, q, popped)
    decreases |popped|
  {
    hide Frontier, LookAt;
    var n := |popped| - 1;
    if k == |popped| {
      assert popped[..k] == popped;
    } else {
      LooksGrow(g, q, popped[..n], k);
      assert popped[..n][..k] == popped[..k];
    }
  }

  /** The looks made are some first part of all looks, and hold all but the last entry's in full. */
  lemma LooksArePrefix(g: Graph, q: WalkQuery, seeds: seq<Id>, popped: seq<Entry>, looks: seq<Look>, order: seq<Id>)
    requires LookedThrough(g, q, seeds, popped, looks, order)
    ensures looks <= AllLooks(g, q, popped)
    ensures popped != [] ==> AllLooks(g, q, popped[..|popped| - 1]) <= looks
  {
    hide Frontier, Met, Refused;
    if popped != [] {
      var n := |popped| - 1;
      var before, e := AllLooks(g, q, popped[..n]), popped[n];
      if e.depth < q.maxHops && looks != before + LookAt(e.id, Frontier(g, q, e.id)) {
        var k: nat :| StoppedAt(g, q, seeds, e.id, before, looks, order, k);
        assert LookAt(e.id, Frontier(g, q, e.id)[..k]) == LookAt(e.id, Frontier(g, q, e.id))[..k];
      }
    }
  }

  lemma HopIsLooked(g: Graph, q: WalkQuery, popped: seq<Entry>, j: nat, y: Id) returns (i: nat)
    requires j < |popped| && popped[j].depth < q.maxHops && y in TypedHops(g, q)(popped[j].id)
    ensures i < |AllLooks(g, q, popped[..j + 1])|
    ensures var l := AllLooks(g, q, popped[..j + 1])[i].rec; Eligible(l, q) && TextOf(l.node, KId) == y
  {
    hide Frontier, Eligible, TextOf;
    var x := popped[j].id;
    var rs := Frontier(g, q, x);
    var r :| r in rs && Eligible(r, q) && TextOf(r.node, KId) == y;
    var m :| 0 <= m < |rs| && rs[m] == r;
    assert popped[..j + 1][..j] == popped[..j];
    i := |AllLooks(g, q, popped[..j])| + m;
  }

  lemma HopIsLookedBefore(g: Graph, q: WalkQuery, popped: seq<Entry>, j: nat, k: nat, y: Id) returns (i: nat)
    requires j < k <= |popped| && popped[j].depth < q.maxHops && y in TypedHops(g, q)(popped[j].id)
    ensures i < |AllLooks(g, q, popped[..k])| <= |AllLooks(g, q, popped)|
    ensures var l := AllLooks(g, q, popped)[i].rec; Eligible(l, q) && TextOf(l.node, KId) == y
  {
    hide AllLooks, TypedHops, Eligible, TextOf;
    i := HopIsLooked(g, q, popped, j, y);
    LooksGrow(g, q, popped[..k], j + 1);
    LooksGrow(g, q, popped, j + 1);
    LooksGrow(g, q, popped, k);
    assert popped[..k][..j + 1] == popped[..j + 1];
  }

  /** The parent of a discovered node is the earliest node taken out that has it among its hops. */
  lemma ParentIsEarliest(g: Graph, q: WalkQuery, seeds: seq<Id>, o: WalkResult, y: Id) returns (k: nat)
    requires Finished(g, q, seeds, o) && y in o.parents
    ensures k < |o.popped| && o.popped[k].id == o.parents[y].id && o.popped[k].depth < q.maxHops
    ensures Discovered(g, q, y, o.parents[y])
    ensures forall j | 0 <= j < k :: y !in TypedHops(g, q)(o.popped[j].id)
  {
    hide BoundedWalk, TypedHops, TypedStart, Pushed, Reports, Met, Room, LookedThrough, AllLooks, Frontier, Eligible,
      TextOf, IsEntry, Placed;
    var looks, popped := o.looks, o.popped;
    LooksArePrefix(g, q, seeds, popped, looks, o.order);
    var i: nat :| FirstLook(q, looks, y, i) && o.parents[y] == Parent(looks[i].from, looks[i].rec.kind);
    assert looks[i] == AllLooks(g, q, popped)[i];
    k := LookBelongs(g, q, popped, i);
    assert looks[i].rec in Frontier(g, q, o.parents[y].id);
    forall j | 0 <= j < k ensures y !in TypedHops(g, q)(popped[j].id) {
      assert Before(popped[j], popped[k]);
      if y in TypedHops(g, q)(popped[j].id) {
        var m := HopIsLookedBefore(g, q, popped, j, k, y);
        assert false;
      }
    }
  }

  // ---------------------------------------------------------------------------
  // No choice
  // ---------------------------------------------------------------------------

  lemma {:induction false} MetGrows(g: Graph, q: WalkQuery, seeds: seq<Id>, a: seq<Look>, b: seq<Look>)
    requires a <= b
    ensures Met(g, q, seeds, a) <= Met(g, q, seeds, b)
    decreases |b|
  {
    hide Met;
    if a != b {
      var n := |b| - 1;
      MetGrows(g, q, seeds, a, b[..n]);
      assert b == b[..n] + [b[n]];
      MetSnoc(g, q, seeds, b[..n], b[n]);
    }
  }

  /** Before the last entry was taken out there was room. */
  lemma RoomBefore(g: Graph, q: WalkQuery, seeds: seq<Id>, popped: seq<Entry>, looks: seq<Look>, order: seq<Id>,
                   k: nat)
    requires LookedThrough(g, q, seeds, popped, looks, order) && k < |popped|
    ensures |Met(g, q, seeds, AllLooks(g, q, popped[..k]))| < q.maxNodes
    ensures AllLooks(g, q, popped[..k]) <= looks
  {
    hide Met, AllLooks, Frontier;
    var n := |popped| - 1;
    LooksGrow(g, q, popped[..n], k);
    assert popped[..n][..k] == popped[..k];
    MetGrows(g, q, seeds, AllLooks(g, q, popped[..k]), AllLooks(g, q, popped[..n]));
    LooksArePrefix(g, q, seeds, popped, looks, order);
  }

  /** With room left, what was met so far is the beginning of what is kept. */
  lemma MetIsKept(g: Graph, q: WalkQuery, seeds: seq<Id>, a: seq<Look>, looks: seq<Look>, order: seq<Id>)
    requires a <= looks && |Met(g, q, seeds, a)| < q.maxNodes
    requires order == UpTo(Met(g, q, seeds, looks), Room(g, q, seeds))
    ensures Met(g, q, seeds, a) <= order
    ensures |Firsts(SeedIds(g, q, seeds))| <= |Met(g, q, seeds, a)|
  {
    hide Met, Firsts, SeedIds;
    MetGrows(g, q, seeds, a, looks);
    MetHasSeeds(g, q, seeds, a);
  }

  lemma PushedOfPrefix(g: Graph, q: WalkQuery, seeds: seq<Id>, a: seq<Id>, order: seq<Id>)
    requires a <= order && |Firsts(SeedIds(g, q, seeds))| <= |a|
    ensures Pushed(g, q, seeds, a) <= Pushed(g, q, seeds, order)
  {
    hide Firsts, SeedIds;
  }

  /** What was looked at before entry `k` was taken out. */
  function LooksBefore(g: Graph, q: WalkQuery, o: WalkResult, k: nat): seq<Look>
    requires k <= |o.popped|
  {
    AllLooks(g, q, o.popped[..k])
  }

  /** A first part of the looks, made while there was room. */
  ghost predicate Early(g: Graph, q: WalkQuery, seeds: seq<Id>, o: WalkResult, a: seq<Look>) {
    a <= o.looks && |Met(g, q, seeds, a)| < q.maxNodes
  }

  /** The node was put into the heap in the course of these looks. */
  ghost predicate PutIn(g: Graph, q: WalkQuery, seeds: seq<Id>, a: seq<Look>, e: Entry) {
    e.counter < |Pushed(g, q, seeds, Met(g, q, seeds, a))|
  }

  lemma EarlyFacts(g: Graph, q: WalkQuery, seeds: seq<Id>, o: WalkResult, a: seq<Look>)
    requires Explains(g, q, seeds, o) && Early(g, q, seeds, o, a)
    ensures Met(g, q, seeds, a) <= o.order && NoRepeats(o.order)
    ensures |Firsts(SeedIds(g, q, seeds))| <= |Met(g, q, seeds, a)|
    ensures Pushed(g, q, seeds, Met(g, q, seeds, a)) <= Pushed(g, q, seeds, o.order)
  {
    hide BestFirst, IsEntry, Placed, Before, LookedThrough, ParentsTold, Reports, Met, Firsts, SeedIds, Pushed;
    MetIsKept(g, q, seeds, a, o.looks, o.order);
    PushedOfPrefix(g, q, seeds, Met(g, q, seeds, a), o.order);
    MetHasSeeds(g, q, seeds, o.looks);
  }

  lemma SeedPlace(ids: seq<Id>, order: seq<Id>, x: Id)
    requires x in ids && Firsts(ids) <= order
    ensures exists j :: 0 <= j < |Firsts(ids)| && order[j] == x
  {
    hide Firsts;
    FirstsAre(ids);
    assert x in Firsts(ids);
    var j :| 0 <= j < |Firsts(ids)| && Firsts(ids)[j] == x;
    assert order[j] == x;
  }

  /** A discovered node that is among those met was looked at by then. */
  lemma PutInIsMet(g: Graph, q: WalkQuery, seeds: seq<Id>, a: seq<Look>, order: seq<Id>, c: nat)
    requires Met(g, q, seeds, a) <= order && NoRepeats(order)
    requires |Firsts(SeedIds(g, q, seeds))| <= |Met(g, q, seeds, a)|
    requires |SeedIds(g, q, seeds)| <= c < |Pushed(g, q, seeds, order)|
    ensures c < |Pushed(g, q, seeds, Met(g, q, seeds, a))| <==> Pushed(g, q, seeds, order)[c] in FarEnds(q, a)
  {
    hide Firsts, SeedIds, FarEnds;
    var ids, met := SeedIds(g, q, seeds), Met(g, q, seeds, a);
    var n := |Firsts(ids)|;
    FirstsAre(ids + FarEnds(q, a));
    FirstsAre(ids);
    FirstsOfPrefix(ids, FarEnds(q, a));
    var x := Pushed(g, q, seeds, order)[c];
    var m := n + (c - |ids|);
    assert x == order[m];
    if x in ids { SeedPlace(ids, order, x); }
    assert x in met <==> x in FarEnds(q, a);
    if x in met {
      var j :| 0 <= j < |met| && met[j] == x;
      assert order[j] == x;
    }
    if m < |met| { assert met[m] == x; }
  }

  /** An entry taken out as number `k` was put in before. */
  lemma PutInBefore(g: Graph, q: WalkQuery, seeds: seq<Id>, o: WalkResult, k: nat)
    requires Explains(g, q, seeds, o) && k < |o.popped|
    ensures Early(g, q, seeds, o, LooksBefore(g, q, o, k))
    ensures PutIn(g, q, seeds, LooksBefore(g, q, o, k), o.popped[k])
  {
    hide Placed, Reports, Met, Room, LookedThrough, AllLooks, Frontier, Eligible, TextOf, Pushed, SeedIds, Firsts,
      FarEnds, AuthorityBonus, EdgeBonus, PriorityList;
    var a, e := LooksBefore(g, q, o, k), o.popped[k];
    RoomBefore(g, q, seeds, o.popped, o.looks, o.order, k);
    EarlyFacts(g, q, seeds, o, a);
    SeedsArePushed(g, q, seeds, Met(g, q, seeds, a));
    assert IsEntry(g, q, seeds, o.order, o.parents, o.depth, e);
    if e.counter >= |SeedIds(g, q, seeds)| {
      LooksArePrefix(g, q, seeds, o.popped, o.looks, o.order);
      var i: nat :| FirstLook(q, o.looks, e.id, i)
                    && o.parents[e.id] == Parent(o.looks[i].from, o.looks[i].rec.kind);
      var k' := LookBelongs(g, q, o.popped, i);
      assert IsEntry(g, q, seeds, o.order, o.parents, o.depth, o.popped[k']);
      assert o.popped[k'].depth < e.depth;
      assert k' < k by { assert k < k' ==> Before(e, o.popped[k']); }
      LooksGrow(g, q, o.popped[..k], k' + 1);
      assert o.popped[..k][..k' + 1] == o.popped[..k' + 1];
      assert o.looks[i] == a[i];
      FarEndsAre(q, a, e.id);
      PutInIsMet(g, q, seeds, a, o.order, e.counter);
    }
  }

  lemma SameFirstLook(q: WalkQuery, a: seq<Look>, looks: seq<Look>, looks': seq<Look>, y: Id, i: nat, i': nat)
    requires a <= looks && a <= looks' && y in FarEnds(q, a)
    requires FirstLook(q, looks, y, i) && FirstLook(q, looks', y, i')
    ensures i == i' < |a| && looks[i] == looks'[i]
  {
    hide Eligible, TextOf, FarEnds;
    FarEndsAre(q, a, y);
    var j :| 0 <= j < |a| && Eligible(a[j].rec, q) && TextOf(a[j].rec.node, KId) == y;
    assert looks[j] == a[j] == looks'[j];
    assert i <= j && i' <= j;
    assert looks[i] == a[i] == looks'[i] && looks[i'] == a[i'] == looks'[i'];
  }

  lemma SameDepth(g: Graph, q: WalkQuery, seeds: seq<Id>, o: WalkResult, o': WalkResult, x: Id)
    requires Finished(g, q, seeds, o) && Finished(g, q, seeds, o') && x in o.depth && x in o'.depth
    ensures o.depth[x] == o'.depth[x]
  {
    hide Explains, TypedHops, TypedStart;
    DistanceIsLeast(TypedHops(g, q), TypedStart(g, q, seeds), x, o.depth[x], o'.depth[x]);
    DistanceIsLeast(TypedHops(g, q), TypedStart(g, q, seeds), x, o'.depth[x], o.depth[x]);
  }

  lemma SameParent(g: Graph, q: WalkQuery, seeds: seq<Id>, o: WalkResult, o': WalkResult, a: seq<Look>, y: Id)
    requires Explains(g, q, seeds, o) && Explains(g, q, seeds, o') && a <= o.looks && a <= o'.looks
    requires y in o.parents && y in o'.parents && y in FarEnds(q, a)
    ensures o.parents[y] == o'.parents[y]
  {
    hide BestFirst, IsEntry, Placed, Before, LookedThrough, Reports, Met, Room, Pushed, FarEnds, Eligible, TextOf;
    var i: nat :| FirstLook(q, o.looks, y, i) && o.parents[y] == Parent(o.looks[i].from, o.looks[i].rec.kind);
    var i': nat :| FirstLook(q, o'.looks, y, i') && o'.parents[y] == Parent(o'.looks[i'].from, o'.looks[i'].rec.kind);
    SameFirstLook(q, a, o.looks, o'.looks, y, i, i');
  }

  /** An entry put in during looks that two walks share is an entry of both. */
  lemma EntryOfBoth(g: Graph, q: WalkQuery, seeds: seq<Id>, o: WalkResult, o': WalkResult, a: seq<Look>, e: Entry)
    requires Finished(g, q, seeds, o) && Finished(g, q, seeds, o')
    requires Early(g, q, seeds, o, a) && Early(g, q, seeds, o', a)
    requires IsEntry(g, q, seeds, o.order, o.parents, o.depth, e) && PutIn(g, q, seeds, a, e)
    ensures IsEntry(g, q, seeds, o'.order, o'.parents, o'.depth, e)
  {
    hide BestFirst, Before, LookedThrough, ParentsTold, Reports, Met, Room, Pushed, SeedIds, Firsts, FarEnds,
      Explains, AuthorityBonus, EdgeBonus, PriorityList, BoundedWalk, TypedHops, TypedStart;
    EarlyFacts(g, q, seeds, o, a);
    EarlyFacts(g, q, seeds, o', a);
    assert Placed(g, q, seeds, o'.order, o'.parents, o'.depth, e.counter) by { PlacedIn(g, q, seeds, o', e.counter); }
    var e' :| IsEntry(g, q, seeds, o'.order, o'.parents, o'.depth, e') && e'.counter == e.counter;
    SameDepth(g, q, seeds, o, o', e.id);
    if e.counter >= |SeedIds(g, q, seeds)| {
      PutInIsMet(g, q, seeds, a, o.order, e.counter);
      SameParent(g, q, seeds, o, o', a, e.id);
    }
  }

  lemma PlacedIn(g: Graph, q: WalkQuery, seeds: seq<Id>, o: WalkResult, c: nat)
    requires Explains(g, q, seeds, o) && c < |Pushed(g, q, seeds, o.order)|
    ensures Placed(g, q, seeds, o.order, o.parents, o.depth, c)
  {
    hide BestFirst, Before, LookedThrough, ParentsTold, Reports, Met, Room, Pushed, IsEntry, Placed;
  }

  /** Of the entries not taken out before, the next one taken out is the best. */
  lemma NextIsBest(g: Graph, q: WalkQuery, seeds: seq<Id>, o: WalkResult, k: nat, e: Entry)
    requires Explains(g, q, seeds, o) && k < |o.popped| && e !in o.popped[..k]
    requires IsEntry(g, q, seeds, o.order, o.parents, o.depth, e)
    ensures e == o.popped[k] || Before(o.popped[k], e)
    ensures o.popped[k] !in o.popped[..k]
  {
    hide IsEntry, Placed, LookedThrough, ParentsTold, Reports, Met, Room, Pushed;
    if e in o.popped {
      var j :| 0 <= j < |o.popped| && o.popped[j] == e;
      assert forall m | 0 <= m < k :: o.popped[m] in o.popped[..k];
    }
    forall j | 0 <= j < k ensures o.popped[j] != o.popped[k] {
      assert Before(o.popped[j], o.popped[k]);
    }
  }

  lemma TakenOnce(popped: seq<Entry>, k: nat)
    requires BestFirst(popped) && k < |popped|
    ensures popped[k] !in popped[..k]
  {
    forall j | 0 <= j < k ensures popped[j] != popped[k] {
      assert Before(popped[j], popped[k]);
    }
  }

  lemma SameNext(g: Graph, q: WalkQuery, seeds: seq<Id>, o: WalkResult, o': WalkResult, k: nat)
    requires Finished(g, q, seeds, o) && Finished(g, q, seeds, o')
    requires k < |o.popped| && k < |o'.popped| && o.popped[..k] == o'.popped[..k]
    ensures o.popped[k] == o'.popped[k]
  {
    hide IsEntry, Placed, LookedThrough, ParentsTold, Reports, Met, Room, Pushed, BoundedWalk, TypedHops, TypedStart,
      AllLooks, Early, PutIn;
    var a, e, e' := LooksBefore(g, q, o, k), o.popped[k], o'.popped[k];
    PutInBefore(g, q, seeds, o, k);
    PutInBefore(g, q, seeds, o', k);
    EntryOfBoth(g, q, seeds, o, o', a, e);
    EntryOfBoth(g, q, seeds, o', o, a, e');
    TakenOnce(o.popped, k);
    TakenOnce(o'.popped, k);
    hide Explains, BestFirst;
    NextIsBest(g, q, seeds, o, k, e');
    NextIsBest(g, q, seeds, o', k, e);
  }

  lemma {:induction false} SameTaken(g: Graph, q: WalkQuery, seeds: seq<Id>, o: WalkResult, o': WalkResult, k: nat)
    requires Finished(g, q, seeds, o) && Finished(g, q, seeds, o') && k <= |o.popped| && k <= |o'.popped|
    ensures o.popped[..k] == o'.popped[..k]
  {
    hide Finished;
    if k > 0 {
      SameTaken(g, q, seeds, o, o', k - 1);
      SameNext(g, q, seeds, o, o', k - 1);
      assert o.popped[..k] == o.popped[..k - 1] + [o.popped[k - 1]];
      assert o'.popped[..k] == o'.popped[..k - 1] + [o'.popped[k - 1]];
    }
  }

  /** A walk that stopped where another went on had room left, so an entry to go on with. */
  lemma NotFewerTaken(g: Graph, q: WalkQuery, seeds: seq<Id>, o: WalkResult, o': WalkResult)
    requires Finished(g, q, seeds, o) && Finished(g, q, seeds, o')
    requires |o.popped| <= |o'.popped| && o.popped == o'.popped[..|o.popped|]
    ensures |o.popped| == |o'.popped|
  {
    hide IsEntry, Placed, LookedThrough, ParentsTold, Reports, Met, Pushed, BoundedWalk, TypedHops, TypedStart,
      AllLooks, PutIn;
    var k := |o.popped|;
    if k < |o'.popped| {
      var a := AllLooks(g, q, o.popped);
      RoomBefore(g, q, seeds, o'.popped, o'.looks, o'.order, k);
      LooksArePrefix(g, q, seeds, o.popped, o.looks, o.order);
      MetGrows(g, q, seeds, o.looks, a);
      RoomMeansAll(g, q, seeds, o.popped, o.looks, o.order);
      PutInBefore(g, q, seeds, o', k);
      EntryOfBoth(g, q, seeds, o', o, a, o'.popped[k]);
      TakenOnce(o'.popped, k);
    }
  }

  lemma LooksRise(g: Graph, q: WalkQuery, x: Id, before: seq<Look>, k: nat, j: nat)
    requires k <= j <= |Frontier(g, q, x)|
    ensures LooksFrom(g, q, x, before, k) <= LooksFrom(g, q, x, before, j)
    ensures LooksFrom(g, q, x, before, |Frontier(g, q, x)|) == before + LookAt(x, Frontier(g, q, x))
  {
    hide Frontier;
    var rs := Frontier(g, q, x);
    assert rs[..|rs|] == rs;
    assert LookAt(x, rs[..k]) == LookAt(x, rs[..j])[..k];
  }

  lemma OrderFits(g: Graph, q: WalkQuery, seeds: seq<Id>, o: WalkResult)
    requires Explains(g, q, seeds, o) && o.popped != []
    ensures |o.order| <= q.maxNodes
  {
    hide IsEntry, Placed, BestFirst, ParentsTold, Reports, Met, Pushed, AllLooks, LookedFrom, Firsts, SeedIds;
    var n := |o.popped| - 1;
    MetHasSeeds(g, q, seeds, AllLooks(g, q, o.popped[..n]));
  }

  /** How far the records of the last node were looked at: until there was no room, or no record. */
  lemma LastLooks(g: Graph, q: WalkQuery, seeds: seq<Id>, x: Id, before: seq<Look>, o: WalkResult) returns (k: nat)
    requires LookedFrom(g, q, seeds, x, before, o.looks, o.order) && |o.order| <= q.maxNodes
    ensures k <= |Frontier(g, q, x)| && o.looks == LooksFrom(g, q, x, before, k)
    ensures k < |Frontier(g, q, x)| ==> |Met(g, q, seeds, LooksFrom(g, q, x, before, k))| > q.maxNodes
    ensures k > 0 ==> |Met(g, q, seeds, LooksFrom(g, q, x, before, k - 1))| <= q.maxNodes
  {
    hide Frontier, Met, Eligible, TextOf, LookAt;
    var n := |Frontier(g, q, x)|;
    LooksRise(g, q, x, before, n, n);
    if o.looks == before + LookAt(x, Frontier(g, q, x)) && o.order == Met(g, q, seeds, o.looks) {
      k := n;
      if n > 0 {
        LooksRise(g, q, x, before, n - 1, n);
        MetGrows(g, q, seeds, LooksFrom(g, q, x, before, n - 1), LooksFrom(g, q, x, before, n));
      }
    } else {
      k :| StoppedAt(g, q, seeds, x, before, o.looks, o.order, k);
      var r := Frontier(g, q, x)[k - 1];
      LookedOn(g, q, x, before, k - 1);
      MetSnoc(g, q, seeds, LooksFrom(g, q, x, before, k - 1), Look(x, r));
    }
  }

  lemma NotFurther(g: Graph, q: WalkQuery, seeds: seq<Id>, x: Id, before: seq<Look>, k: nat, j: nat)
    requires k <= |Frontier(g, q, x)| && 0 < j <= |Frontier(g, q, x)|
    requires |Met(g, q, seeds, LooksFrom(g, q, x, before, k))| > q.maxNodes
    requires |Met(g, q, seeds, LooksFrom(g, q, x, before, j - 1))| <= q.maxNodes
    ensures j <= k
  {
    hide Frontier, Met, LooksFrom;
    if k < j {
      LooksRise(g, q, x, before, k, j - 1);
      MetGrows(g, q, seeds, LooksFrom(g, q, x, before, k), LooksFrom(g, q, x, before, j - 1));
    }
  }

  lemma SameLooks(g: Graph, q: WalkQuery, seeds: seq<Id>, o: WalkResult, o': WalkResult)
    requires Explains(g, q, seeds, o) && Explains(g, q, seeds, o') && o.popped == o'.popped
    ensures o.looks == o'.looks && o.order == o'.order
  {
    hide IsEntry, Placed, BestFirst, ParentsTold, Reports, Met, Pushed, AllLooks, LookedFrom, Frontier, Room,
      LooksFrom;
    if o.popped != [] {
      var n := |o.popped| - 1;
      var before, e := AllLooks(g, q, o.popped[..n]), o.popped[n];
      if e.depth < q.maxHops {
        OrderFits(g, q, seeds, o);
        OrderFits(g, q, seeds, o');
        var k := LastLooks(g, q, seeds, e.id, before, o);
        var k' := LastLooks(g, q, seeds, e.id, before, o');
        if k < |Frontier(g, q, e.id)| && k' > 0 { NotFurther(g, q, seeds, e.id, before, k, k'); }
        if k' < |Frontier(g, q, e.id)| && k > 0 { NotFurther(g, q, seeds, e.id, before, k', k); }
      }
    }
  }

  lemma ParentsFollow(g: Graph, q: WalkQuery, seeds: seq<Id>, o: WalkResult, o': WalkResult)
    requires Explains(g, q, seeds, o) && Explains(g, q, seeds, o')
    requires o.looks == o'.looks && o.parents.Keys == o'.parents.Keys
    ensures o.parents == o'.parents
  {
    hide IsEntry, Placed, BestFirst, Before, LookedThrough, Reports, Met, Room, Pushed, Eligible, TextOf;
    forall y | y in o.parents ensures o.parents[y] == o'.parents[y] {
      var i: nat :| FirstLook(q, o.looks, y, i) && o.parents[y] == Parent(o.looks[i].from, o.looks[i].rec.kind);
      var j: nat :| FirstLook(q, o.looks, y, j) && o'.parents[y] == Parent(o.looks[j].from, o.looks[j].rec.kind);
    }
  }

  /**
   * The walk leaves no choice: two results for the same store, query and seeds keep the same nodes in the same
   * order at the same depths, and report the same edges and parents; also when the budget cut them short.
   */
  lemma ResultIsDetermined(g: Graph, q: WalkQuery, seeds: seq<Id>, o: WalkResult, o': WalkResult)
    requires Finished(g, q, seeds, o) && Finished(g, q, seeds, o')
    ensures o == o'
  {
    hide Finished, Explains;
    FinishedParts(g, q, seeds, o);
    FinishedParts(g, q, seeds, o');
    var n := if |o.popped| <= |o'.popped| then |o.popped| else |o'.popped|;
    SameTaken(g, q, seeds, o, o', n);
    assert o.popped[..|o.popped|] == o.popped && o'.popped[..|o'.popped|] == o'.popped;
    if |o.popped| <= |o'.popped| {
      NotFewerTaken(g, q, seeds, o, o');
    } else {
      NotFewerTaken(g, q, seeds, o', o);
    }
    SameLooks(g, q, seeds, o, o');
    ParentsFollow(g, q, seeds, o, o');
    forall x | x in o.depth ensures o.depth[x] == o'.depth[x] {
      SameDepth(g, q, seeds, o, o', x);
    }
  }

  lemma FinishedParts(g: Graph, q: WalkQuery, seeds: seq<Id>, o: WalkResult)
    requires Finished(g, q, seeds, o)
    ensures Explains(g, q, seeds, o) && o.edges == Reports(o.looks)
    ensures o.depth.Keys == Ids(o.order) && o.parents.Keys == Ids(o.order) - TypedStart(g, q, seeds)
  {
    hide BoundedWalk, TypedHops, TypedStart, IsEntry, Placed, BestFirst, LookedThrough, ParentsTold, Met, Room,
      Pushed, Reports;
  }

  // ---------------------------------------------------------------------------
  // Seeds and the budget
  // ---------------------------------------------------------------------------

  /** A store of two doctrines. */
  function TwoDoctrines(a: Id, b: Id): Graph {
    After(After(EMPTY, PutNode(Doctrine, a, map[])), PutNode(Doctrine, b, map[]))
  }

  lemma DoctrinesAreStored(a: Id, b: Id)
    requires a != b
    ensures Consistent(TwoDoctrines(a, b))
    ensures TwoDoctrines(a, b).nodes == map[a := Stub(a, Doctrine), b := Stub(b, Doctrine)]
  {
    var first, second := PutNode(Doctrine, a, map[]), PutNode(Doctrine, b, map[]);
    assert Accepts(first) && Accepts(second);
    ReachableConsistent([]);
    AfterConsistent(EMPTY, first);
    AfterConsistent(After(EMPTY, first), second);
    assert map[] + map[] + Stub(a, Doctrine) == Stub(a, Doctrine);
    assert map[] + map[] + Stub(b, Doctrine) == Stub(b, Doctrine);
  }

  /** With more admissible seeds than the budget allows nodes, all of them are kept. */
  lemma SeedsOverrun(a: Id, b: Id, q: WalkQuery, o: WalkResult)
    requires a != b && q.maxNodes == 1 && q.authorityCeiling.None? && q.asOf.None?
    requires Finished(TwoDoctrines(a, b), q, [a, b], o)
    ensures Ids(o.order) == {a, b} && |o.order| == 2 > q.maxNodes
  {
    hide Finished, TwoDoctrines;
    var g := TwoDoctrines(a, b);
    DoctrinesAreSeeds(a, b, q);
    FinishedCounts(g, q, [a, b], o);
    TwoCount(a, b, Ids(o.order));
  }

  lemma DoctrinesAreSeeds(a: Id, b: Id, q: WalkQuery)
    requires a != b && q.authorityCeiling.None? && q.asOf.None?
    ensures TypedStart(TwoDoctrines(a, b), q, [a, b]) == {a, b}
  {
    DoctrinesAreStored(a, b);
    StubIsAdmissible(a, q);
    StubIsAdmissible(b, q);
    hide Admissible, TwoDoctrines, Stub;
  }

  lemma StubIsAdmissible(a: Id, q: WalkQuery)
    requires q.authorityCeiling.None? && q.asOf.None?
    ensures Admissible(Stub(a, Doctrine), q)
  {
  }

  lemma FinishedCounts(g: Graph, q: WalkQuery, seeds: seq<Id>, o: WalkResult)
    requires Finished(g, q, seeds, o)
    ensures |o.order| == |Ids(o.order)| && TypedStart(g, q, seeds) <= Ids(o.order)
    ensures |o.order| <= q.maxNodes || Ids(o.order) == TypedStart(g, q, seeds)
  {
    hide BoundedWalk, TypedHops, TypedStart, IsEntry, Placed, BestFirst, LookedThrough, ParentsTold, Met, Pushed,
      Reports;
    MetHasSeeds(g, q, seeds, o.looks);
    OrderCounts(o.order);
  }

  lemma TwoCount(a: Id, b: Id, s: set<Id>)
    requires a != b && {a, b} <= s
    ensures |s| >= 2 && |{a, b}| == 2
  {
    assert s == (s - {a, b}) + {a, b};
  }
}
