/**
 * Which neighbours of a node are looked at, and which of two nodes found at the same depth is expanded first: said in
 * tiers, list positions and order of keeping.
 */
module WalkOrder {
  import opened Wrappers
  import opened Ontology
  import opened StableSort
  import opened StoreModel
  import opened Reachability
  import opened TypedWalk
  import opened WalkState
  import opened WalkTrace
  import opened WalkOutcome

  /** The authority tier, 1 the best; a node without one counts as 5. */
  function TierRank(node: Props): int {
    if KAuthorityTier in node && node[KAuthorityTier].Number? then
      (if node[KAuthorityTier].n < 1 then 1 else node[KAuthorityTier].n)
    else 5
  }

  /** The first type stands earlier in the list than the second; any type listed before any that is not. */
  ghost predicate ListedBefore(list: seq<EdgeType>, a: EdgeType, b: EdgeType) {
    (a in list && b !in list) || exists i, j :: 0 <= i < j < |list| && list[i] == a && list[j] == b
  }

  ghost predicate ListedAlike(list: seq<EdgeType>, a: EdgeType, b: EdgeType) {
    a == b || (a !in list && b !in list)
  }

  ghost predicate KeptBefore(order: seq<Id>, x: Id, y: Id) {
    exists i, j :: 0 <= i < j < |order| && order[i] == x && order[j] == y
  }

  /** A better tier; with equal tiers the edge that led there, if one did; with both equal, what was kept earlier. */
  ghost predicate ComesFirst(g: Graph, q: WalkQuery, o: WalkResult, x: Id, y: Id)
    requires x in g.nodes && y in g.nodes
  {
    || TierRank(g.nodes[x]) < TierRank(g.nodes[y])
    || (TierRank(g.nodes[x]) == TierRank(g.nodes[y])
        && if x in o.parents && y in o.parents then
             || ListedBefore(PriorityList(q), o.parents[x].via, o.parents[y].via)
             || (ListedAlike(PriorityList(q), o.parents[x].via, o.parents[y].via) && KeptBefore(o.order, x, y))
           else KeptBefore(o.order, x, y))
  }

  // ---------------------------------------------------------------------------
  // Bonuses
  // ---------------------------------------------------------------------------

  lemma BonusByTier(a: Props, b: Props)
    ensures TierRank(a) < TierRank(b) ==> AuthorityBonus(a) > AuthorityBonus(b)
    ensures TierRank(a) == TierRank(b) ==> AuthorityBonus(a) == AuthorityBonus(b)
  {
    var x, y := TierRank(a) as real, TierRank(b) as real;
    assert AuthorityBonus(a) * x == 1.0 && AuthorityBonus(b) * y == 1.0;
    if TierRank(a) < TierRank(b) { InverseFalls(AuthorityBonus(a), AuthorityBonus(b), x, y); }
  }

  lemma BonusByPlace(list: seq<EdgeType>, a: EdgeType, b: EdgeType)
    requires NoRepeats(list)
    ensures ListedBefore(list, a, b) ==> EdgeBonus(list, a) > EdgeBonus(list, b)
    ensures ListedAlike(list, a, b) ==> EdgeBonus(list, a) == EdgeBonus(list, b)
  {
    hide EdgeBonus, NoRepeats;
    BonusIfNotListed(list, a);
    BonusIfNotListed(list, b);
    if ListedBefore(list, a, b) {
      if a in list && b !in list {
        BonusIfListed(list, a);
      } else {
        var i, j :| 0 <= i < j < |list| && list[i] == a && list[j] == b;
        BonusInOrder(list, i, j);
      }
    }
  }

  lemma BonusIfNotListed(list: seq<EdgeType>, a: EdgeType)
    ensures a in list || EdgeBonus(list, a) == 0.1
  {
    hide Rank;
  }

  lemma BonusIfListed(list: seq<EdgeType>, a: EdgeType)
    requires NoRepeats(list) && a in list
    ensures EdgeBonus(list, a) > 0.1
  {
    CountListed(list);
    RankIsPlace(list, a);
    var r, n := Rank(list, a) as real, |list| as real;
    hide Rank;
    assert 0.0 <= r <= n - 1.0;
    assert r / n * n == r;
    QuotientsOrder(r / n, 1.0, n);
  }

  lemma BonusInOrder(list: seq<EdgeType>, i: nat, j: nat)
    requires NoRepeats(list) && i < j < |list|
    ensures EdgeBonus(list, list[i]) > EdgeBonus(list, list[j])
  {
    CountListed(list);
    RankIsPlace(list, list[i]);
    RankIsPlace(list, list[j]);
    hide Rank;
    BonusesFall(i as real, j as real, |list| as real);
  }

  // ---------------------------------------------------------------------------
  // Order of arrival
  // ---------------------------------------------------------------------------

  /** What appears first appears before anything that appears first after it. */
  lemma {:induction false} FirstsInOrder(ids: seq<Id>, a: nat, b: nat) returns (i: nat)
    requires a < b < |Firsts(ids)|
    ensures i < |ids| && ids[i] == Firsts(ids)[a]
    ensures forall k | 0 <= k < |ids| && ids[k] == Firsts(ids)[b] :: i < k
  {
    var n := |ids| - 1;
    var x := ids[n];
    FirstsAre(ids[..n]);
    FirstsAre(ids);
    assert forall k | 0 <= k < n :: ids[..n][k] == ids[k];
    if b < |Firsts(ids[..n])| {
      i := FirstsInOrder(ids[..n], a, b);
    } else {
      assert Firsts(ids)[a] == Firsts(ids[..n])[a];
      assert Firsts(ids)[a] in ids[..n];
      i :| 0 <= i < n && ids[..n][i] == Firsts(ids)[a];
      forall k | 0 <= k < n ensures ids[k] != x {
        assert ids[k] in ids[..n];
      }
    }
  }

  lemma SeedsComeFirst(g: Graph, q: WalkQuery, seeds: seq<Id>, o: WalkResult)
    requires Finished(g, q, seeds, o)
    ensures Firsts(SeedIds(g, q, seeds)) <= o.order && NoRepeats(o.order)
  {
    hide BoundedWalk, TypedHops, TypedStart, IsEntry, Placed, BestFirst, LookedThrough, ParentsTold, Met, Pushed,
      Reports, Firsts, SeedIds;
    MetHasSeeds(g, q, seeds, o.looks);
  }

  lemma {:induction false} SeedIdsAre(g: Graph, q: WalkQuery, seeds: seq<Id>)
    ensures forall x :: x in SeedIds(g, q, seeds) <==> x in TypedStart(g, q, seeds)
  {
    hide AdmissibleId;
    if seeds != [] {
      var n := |seeds| - 1;
      SeedIdsAre(g, q, seeds[..n]);
      assert seeds == seeds[..n] + [seeds[n]];
    }
  }

  lemma FoundIsNoSeed(g: Graph, q: WalkQuery, seeds: seq<Id>, o: WalkResult, x: Id)
    requires Finished(g, q, seeds, o) && x in o.parents
    ensures x !in TypedStart(g, q, seeds)
  {
    hide Explains, BoundedWalk, TypedHops, TypedStart;
  }

  /** A node of parents was put in after the seeds, at its place in the order. */
  lemma FoundAt(g: Graph, q: WalkQuery, seeds: seq<Id>, o: WalkResult, c: nat) returns (m: nat)
    requires Finished(g, q, seeds, o) && c < |Pushed(g, q, seeds, o.order)|
    requires Pushed(g, q, seeds, o.order)[c] in o.parents
    ensures |Firsts(SeedIds(g, q, seeds))| <= m < |o.order| && o.order[m] == Pushed(g, q, seeds, o.order)[c]
    ensures c == |SeedIds(g, q, seeds)| + m - |Firsts(SeedIds(g, q, seeds))|
  {
    SeedsComeFirst(g, q, seeds, o);
    SeedIdsAre(g, q, seeds);
    FoundIsNoSeed(g, q, seeds, o, Pushed(g, q, seeds, o.order)[c]);
    hide Finished, TypedStart, Firsts, SeedIds;
    m := |Firsts(SeedIds(g, q, seeds))| + c - |SeedIds(g, q, seeds)|;
  }

  /** The entry of the node at a place. */
  lemma EntryAt(g: Graph, q: WalkQuery, seeds: seq<Id>, o: WalkResult, c: nat) returns (e: Entry)
    requires Explains(g, q, seeds, o) && c < |Pushed(g, q, seeds, o.order)|
    ensures IsEntry(g, q, seeds, o.order, o.parents, o.depth, e) && e.counter == c
    ensures e.id == Pushed(g, q, seeds, o.order)[c]
  {
    PlacedIn(g, q, seeds, o, c);
    hide Explains, Pushed, AuthorityBonus, EdgeBonus, PriorityList, SeedIds;
    e :| IsEntry(g, q, seeds, o.order, o.parents, o.depth, e) && e.counter == c;
  }

  lemma EarlierIfBefore(popped: seq<Entry>, i: nat, j: nat)
    requires BestFirst(popped) && i < |popped| && j < |popped| && Before(popped[i], popped[j])
    ensures i < j
  {
  }

  lemma TakenFirst(g: Graph, q: WalkQuery, seeds: seq<Id>, o: WalkResult, e: Entry, j: nat)
    requires Explains(g, q, seeds, o) && IsEntry(g, q, seeds, o.order, o.parents, o.depth, e)
    requires j < |o.popped|
    ensures e in o.popped || Before(o.popped[j], e)
  {
    hide IsEntry, Placed, LookedThrough, ParentsTold, Reports, Met, Room, Pushed;
  }

  /** An entry better than one that was taken out was taken out before it. */
  lemma BetterIsBefore(g: Graph, q: WalkQuery, seeds: seq<Id>, o: WalkResult, e: Entry, j: nat) returns (i: nat)
    requires Explains(g, q, seeds, o) && IsEntry(g, q, seeds, o.order, o.parents, o.depth, e)
    requires j < |o.popped| && Before(e, o.popped[j])
    ensures i < j && o.popped[i] == e
  {
    hide IsEntry, Placed, LookedThrough, ParentsTold, Reports, Met, Room, Pushed;
    TakenFirst(g, q, seeds, o, e, j);
    i :| 0 <= i < |o.popped| && o.popped[i] == e;
    EarlierIfBefore(o.popped, i, j);
  }

  // ---------------------------------------------------------------------------
  // The order of expansion
  // ---------------------------------------------------------------------------

  /** Two entries of one depth, compared by tier, by the edges that led there, and by arrival. */
  lemma EntriesCompare(g: Graph, q: WalkQuery, seeds: seq<Id>, o: WalkResult, e: Entry, f: Entry)
    requires IsEntry(g, q, seeds, o.order, o.parents, o.depth, e)
    requires IsEntry(g, q, seeds, o.order, o.parents, o.depth, f)
    requires NoRepeats(PriorityList(q)) && e.depth == f.depth
    requires e.counter < |SeedIds(g, q, seeds)| <==> f.counter < |SeedIds(g, q, seeds)|
    ensures TierRank(g.nodes[e.id]) < TierRank(g.nodes[f.id]) ==> Before(e, f)
    ensures (TierRank(g.nodes[e.id]) == TierRank(g.nodes[f.id]) && e.counter >= |SeedIds(g, q, seeds)|
             && ListedBefore(PriorityList(q), o.parents[e.id].via, o.parents[f.id].via)) ==>
              Before(e, f)
    ensures (TierRank(g.nodes[e.id]) == TierRank(g.nodes[f.id]) && e.counter >= |SeedIds(g, q, seeds)|
             && ListedAlike(PriorityList(q), o.parents[e.id].via, o.parents[f.id].via) && e.counter < f.counter) ==>
              Before(e, f)
    ensures (TierRank(g.nodes[e.id]) == TierRank(g.nodes[f.id]) && e.counter < |SeedIds(g, q, seeds)|
             && e.counter < f.counter) ==>
              Before(e, f)
  {
    BonusByTier(g.nodes[e.id], g.nodes[f.id]);
    hide Pushed, SeedIds, AuthorityBonus, EdgeBonus, PriorityList, TierRank, ListedBefore, ListedAlike, NoRepeats;
    if e.counter >= |SeedIds(g, q, seeds)| {
      BonusByPlace(PriorityList(q), o.parents[e.id].via, o.parents[f.id].via);
    }
  }

  lemma SeedHasNoParent(g: Graph, q: WalkQuery, seeds: seq<Id>, o: WalkResult, c: nat)
    requires Finished(g, q, seeds, o) && c < |Pushed(g, q, seeds, o.order)|
    ensures c < |SeedIds(g, q, seeds)| <==> Pushed(g, q, seeds, o.order)[c] !in o.parents
  {
    SeedIdsAre(g, q, seeds);
    if c >= |SeedIds(g, q, seeds)| {
      var e := EntryAt(g, q, seeds, o, c);
    } else {
      SeedsArePushed(g, q, seeds, o.order);
    }
  }

  /** A place at which the node was put in: before any of the other's, if it was kept before that one. */
  lemma EarlyPlace(g: Graph, q: WalkQuery, seeds: seq<Id>, o: WalkResult, x: Id, y: Id) returns (c: nat)
    requires Finished(g, q, seeds, o) && x in o.order && y in o.order
    requires x in o.parents <==> y in o.parents
    ensures c < |Pushed(g, q, seeds, o.order)| && Pushed(g, q, seeds, o.order)[c] == x
    ensures KeptBefore(o.order, x, y) ==>
              forall d | 0 <= d < |Pushed(g, q, seeds, o.order)| && Pushed(g, q, seeds, o.order)[d] == y :: c < d
  {
    SeedsComeFirst(g, q, seeds, o);
    FinishedParts(g, q, seeds, o);
    KeptIsPushed(g, q, seeds, o.looks, o.order, x);
    var ids := SeedIds(g, q, seeds);
    var n := |Firsts(ids)|;
    c :| 0 <= c < |Pushed(g, q, seeds, o.order)| && Pushed(g, q, seeds, o.order)[c] == x;
    SeedHasNoParent(g, q, seeds, o, c);
    if KeptBefore(o.order, x, y) {
      var a: nat, b: nat :| a < b < |o.order| && o.order[a] == x && o.order[b] == y;
      if x in o.parents {
        FoundInOrder(g, q, seeds, o, a, b, c);
      } else {
        c := SeedsInOrder(g, q, seeds, o, a, b);
      }
    }
  }

  lemma FoundInOrder(g: Graph, q: WalkQuery, seeds: seq<Id>, o: WalkResult, a: nat, b: nat, c: nat)
    requires Finished(g, q, seeds, o) && a < b < |o.order| && o.order[a] in o.parents && o.order[b] in o.parents
    requires c < |Pushed(g, q, seeds, o.order)| && Pushed(g, q, seeds, o.order)[c] == o.order[a]
    ensures forall d | 0 <= d < |Pushed(g, q, seeds, o.order)| && Pushed(g, q, seeds, o.order)[d] == o.order[b] :: c < d
  {
    SeedsComeFirst(g, q, seeds, o);
    hide Finished, Pushed, Firsts, SeedIds;
    var m := FoundAt(g, q, seeds, o, c);
    assert m == a;
    forall d: nat | d < |Pushed(g, q, seeds, o.order)| && Pushed(g, q, seeds, o.order)[d] == o.order[b] ensures c < d {
      var k := FoundAt(g, q, seeds, o, d);
      assert k == b;
    }
  }

  lemma SeedsInOrder(g: Graph, q: WalkQuery, seeds: seq<Id>, o: WalkResult, a: nat, b: nat) returns (c: nat)
    requires Finished(g, q, seeds, o) && a < b < |o.order| && o.order[a] !in o.parents && o.order[b] !in o.parents
    ensures c < |Pushed(g, q, seeds, o.order)| && Pushed(g, q, seeds, o.order)[c] == o.order[a]
    ensures forall d | 0 <= d < |Pushed(g, q, seeds, o.order)| && Pushed(g, q, seeds, o.order)[d] == o.order[b] :: c < d
  {
    var ids := SeedIds(g, q, seeds);
    SeedsComeFirst(g, q, seeds, o);
    SeedsArePushed(g, q, seeds, o.order);
    AmongFirsts(g, q, seeds, o, b);
    AmongFirsts(g, q, seeds, o, a);
    c := FirstsInOrder(ids, a, b);
    forall d: nat | d < |Pushed(g, q, seeds, o.order)| && Pushed(g, q, seeds, o.order)[d] == o.order[b] ensures c < d {
      SeedHasNoParent(g, q, seeds, o, d);
    }
  }

  lemma AmongFirsts(g: Graph, q: WalkQuery, seeds: seq<Id>, o: WalkResult, b: nat)
    requires Finished(g, q, seeds, o) && b < |o.order| && o.order[b] !in o.parents
    ensures b < |Firsts(SeedIds(g, q, seeds))| && o.order[b] == Firsts(SeedIds(g, q, seeds))[b]
  {
    SeedsComeFirst(g, q, seeds, o);
    SeedIdsAre(g, q, seeds);
    FirstsAre(SeedIds(g, q, seeds));
    FinishedParts(g, q, seeds, o);
    hide Finished, Firsts, SeedIds, TypedStart, Explains;
    var firsts := Firsts(SeedIds(g, q, seeds));
    assert o.order[b] in Ids(o.order);
    assert o.order[b] in firsts;
    var i :| 0 <= i < |firsts| && firsts[i] == o.order[b];
    assert o.order[i] == o.order[b];
  }

  /**
   * Of two nodes kept at one depth, if the second was taken out of the heap to be expanded then so was the first,
   * before it: the first being of a better tier, whichever edges led there; or of the same tier and reached by an
   * edge type that stands earlier in the priority list; or the same in both and kept earlier.
   */
  lemma BestIsExpandedFirst(g: Graph, q: WalkQuery, seeds: seq<Id>, o: WalkResult, x: Id, y: Id, j: nat)
    returns (i: nat)
    requires Finished(g, q, seeds, o) && NoRepeats(PriorityList(q))
    requires x in o.order && y in o.order && x in g.nodes && y in g.nodes
    requires x in o.depth && y in o.depth && o.depth[x] == o.depth[y] && ComesFirst(g, q, o, x, y)
    requires j < |o.popped| && o.popped[j].id == y
    ensures i < j && o.popped[i].id == x
  {
    hide BoundedWalk, TypedHops, TypedStart, IsEntry, Placed, BestFirst, LookedThrough, ParentsTold, Met, Pushed,
      Reports, Before, TierRank, ListedBefore, ListedAlike, KeptBefore, PriorityList, SeedIds;
    var f := o.popped[j];
    assert IsEntry(g, q, seeds, o.order, o.parents, o.depth, f);
    IsEntryMeans(g, q, seeds, o, f);
    SameKind(g, q, seeds, o, x, y);
    var c := EarlyPlace(g, q, seeds, o, x, y);
    var e := EntryAt(g, q, seeds, o, c);
    IsEntryMeans(g, q, seeds, o, e);
    SeedHasNoParent(g, q, seeds, o, c);
    SeedHasNoParent(g, q, seeds, o, f.counter);
    EntriesCompare(g, q, seeds, o, e, f);
    i := BetterIsBefore(g, q, seeds, o, e, j);
  }

  lemma IsEntryMeans(g: Graph, q: WalkQuery, seeds: seq<Id>, o: WalkResult, e: Entry)
    requires IsEntry(g, q, seeds, o.order, o.parents, o.depth, e)
    ensures e.counter < |Pushed(g, q, seeds, o.order)| && e.id == Pushed(g, q, seeds, o.order)[e.counter]
    ensures e.id in o.depth && e.depth == o.depth[e.id] && e.id in g.nodes
  {
    hide Pushed, SeedIds, AuthorityBonus, EdgeBonus, PriorityList;
  }

  /** At one depth either both were seeds or both were found. */
  lemma SameKind(g: Graph, q: WalkQuery, seeds: seq<Id>, o: WalkResult, x: Id, y: Id)
    requires Finished(g, q, seeds, o) && x in o.depth && y in o.depth && o.depth[x] == o.depth[y]
    ensures x in o.parents <==> y in o.parents
  {
    DepthOfSeed(g, q, seeds, o, x);
    DepthOfSeed(g, q, seeds, o, y);
  }

  lemma DepthOfSeed(g: Graph, q: WalkQuery, seeds: seq<Id>, o: WalkResult, x: Id)
    requires Finished(g, q, seeds, o) && x in o.depth
    ensures x in o.parents <==> o.depth[x] > 0
  {
    hide IsEntry, Placed, BestFirst, LookedThrough, ParentsTold, Met, Pushed, Reports, TypedHops, TypedStart;
    if x !in o.parents {
      assert x in TypedStart(g, q, seeds);
      DistanceIsLeast(TypedHops(g, q), TypedStart(g, q, seeds), x, o.depth[x], 0);
    }
  }

  // ---------------------------------------------------------------------------
  // Which neighbours are looked at
  // ---------------------------------------------------------------------------

  /** Of two neighbours the one whose edge type stands earlier in the list; of two that do not differ, the older. */
  ghost predicate LooksFirst(list: seq<EdgeType>, rs: seq<Record>, i: nat, j: nat)
    requires i < |rs| && j < |rs|
  {
    ListedBefore(list, rs[i].kind, rs[j].kind) || (ListedAlike(list, rs[i].kind, rs[j].kind) && i < j)
  }

  lemma {:induction false} UnlistedIsLast(list: seq<EdgeType>, kind: EdgeType)
    requires kind !in list
    ensures Rank(list, kind) == 999
  {
    if list != [] { UnlistedIsLast(list[..|list| - 1], kind); }
  }

  lemma RankOrders(list: seq<EdgeType>, a: EdgeType, b: EdgeType)
    requires NoRepeats(list) && |list| <= 999
    ensures Rank(list, a) < Rank(list, b) ==> ListedBefore(list, a, b)
    ensures Rank(list, a) == Rank(list, b) ==> ListedAlike(list, a, b)
  {
    if a in list { RankIsPlace(list, a); } else { UnlistedIsLast(list, a); }
    if b in list { RankIsPlace(list, b); } else { UnlistedIsLast(list, b); }
    hide Rank;
    if a in list && b in list && Rank(list, a) < Rank(list, b) {
      var i, j := Rank(list, a), Rank(list, b);
      assert list[i] == a && list[j] == b;
    }
  }

  ghost predicate Chosen(g: Graph, q: WalkQuery, x: Id, at: seq<nat>) {
    var all, some := Candidates(g, q, x), Frontier(g, q, x);
    && all == Neighbors(g, x, if q.policy.Some? && q.policy.value.restrictive then q.policy.value.priority else [],
                        AnyWay)
    && |at| == |some| == (if |all| < q.fanout then |all| else q.fanout)
    && (forall n | 0 <= n < |at| :: at[n] < |all| && some[n] == all[at[n]])
    && (forall n, m | 0 <= n < m < |at| :: LooksFirst(PriorityList(q), all, at[n], at[m]))
    && forall n, i | 0 <= n < |at| && 0 <= i < |all| && i !in at :: LooksFirst(PriorityList(q), all, at[n], i)
  }

  lemma SortedLooksFirst(list: seq<EdgeType>, rs: seq<Record>, places: seq<nat>)
    requires NoRepeats(list) && |list| <= 999 && InPlace(ByPriority(list), rs, places)
    ensures forall n, m | 0 <= n < m < |places| :: LooksFirst(list, rs, places[n], places[m])
  {
    hide Rank, ListedBefore, ListedAlike, NoRepeats;
    var le := ByPriority(list);
    forall n, m | 0 <= n < m < |places| ensures LooksFirst(list, rs, places[n], places[m]) {
      assert GoesBefore(le, rs, places[n], places[m]);
      RankOrders(list, rs[places[n]].kind, rs[places[m]].kind);
    }
  }

  /** What is not among the first comes after all of them. */
  lemma RestComesAfter(list: seq<EdgeType>, rs: seq<Record>, places: seq<nat>, cut: nat)
    requires (forall n | 0 <= n < |places| :: places[n] < |rs|) && (forall i | 0 <= i < |rs| :: i in places)
    requires forall n, m | 0 <= n < m < |places| :: LooksFirst(list, rs, places[n], places[m])
    requires cut <= |places|
    ensures forall n, i | 0 <= n < cut && 0 <= i < |rs| && i !in places[..cut] :: LooksFirst(list, rs, places[n], i)
  {
    hide LooksFirst;
    forall n, i | 0 <= n < cut && 0 <= i < |rs| && i !in places[..cut] ensures LooksFirst(list, rs, places[n], i) {
      var m := PlaceBehind(places, cut, i);
    }
  }

  lemma PlaceBehind(places: seq<nat>, cut: nat, i: nat) returns (m: nat)
    requires cut <= |places| && i in places && i !in places[..cut]
    ensures cut <= m < |places| && places[m] == i
  {
    assert places == places[..cut] + places[cut..];
    assert i in places[cut..];
    var k :| 0 <= k < |places[cut..]| && places[cut..][k] == i;
    m := cut + k;
  }

  /**
   * The neighbours looked at, by their places among all the neighbours that the policy allows: as many as the fan-out
   * admits, each of them before any that is left out.
   */
  lemma CutKeepsFirst(g: Graph, q: WalkQuery, x: Id) returns (at: seq<nat>)
    requires NoRepeats(PriorityList(q)) && |PriorityList(q)| <= 999
    ensures Chosen(g, q, x, at)
  {
    var list, all := PriorityList(q), Candidates(g, q, x);
    var cut := FrontierIsCut(g, q, x);
    var places := PlacesOf(list, all);
    hide Frontier, Candidates, Neighbors, Sort, LooksFirst, NoRepeats;
    RestComesAfter(list, all, places, cut);
    at := places[..cut];
  }

  lemma FrontierIsCut(g: Graph, q: WalkQuery, x: Id) returns (cut: nat)
    ensures var all, sorted := Candidates(g, q, x), Sort(Candidates(g, q, x), ByPriority(PriorityList(q)));
            && |sorted| == |all| && cut == (if |all| < q.fanout then |all| else q.fanout)
            && Frontier(g, q, x) == sorted[..cut]
  {
    hide Neighbors;
    SortPermutes(Candidates(g, q, x), ByPriority(PriorityList(q)));
    cut := |Frontier(g, q, x)|;
  }

  lemma PlacesOf(list: seq<EdgeType>, rs: seq<Record>) returns (places: seq<nat>)
    requires NoRepeats(list) && |list| <= 999
    ensures Lists(rs, places, Sort(rs, ByPriority(list)))
    ensures forall n, m | 0 <= n < m < |places| :: LooksFirst(list, rs, places[n], places[m])
  {
    assert TotalPreorder(ByPriority(list), rs);
    places := SortPlaces(rs, ByPriority(list));
    hide Lists, Sort, Rank, LooksFirst, NoRepeats;
    SortedLooksFirst(list, rs, places);
  }

  // ---------------------------------------------------------------------------
  // What is kept of a node
  // ---------------------------------------------------------------------------

  /** The score of a node that brings none: by the place of the edge type that led there, or nothing for a seed. */
  ghost predicate IsScore(score: real, list: seq<EdgeType>, via: Option<EdgeType>) {
    match via
    case None => score == 0.0
    case Some(kind) =>
      && (kind !in list ==> score == 0.1)
      && forall i | 0 <= i < |list| && list[i] == kind :: |list| as real * score == |list| as real - 0.8 * i as real
  }

  lemma BonusIsScore(list: seq<EdgeType>, kind: EdgeType)
    requires NoRepeats(list)
    ensures IsScore(EdgeBonus(list, kind), list, Some(kind))
  {
    CountListed(list);
    if i :| 0 <= i < |list| && list[i] == kind {
      RankIsPlace(list, kind);
      hide Rank;
      assert Rank(list, kind) == i;
      var n := |list| as real;
      assert i as real / n * n == i as real;
      Spread(EdgeBonus(list, kind), i as real / n, n);
    }
  }

  lemma Spread(b: real, x: real, n: real)
    requires b == 1.0 - x * 0.8
    ensures n * b == n - 0.8 * (x * n)
  {
  }

  /** A node is kept as it is stored, property by property; only a score is added if it has none. */
  lemma KeptAsStored(g: Graph, q: WalkQuery, kept: map<Id, Props>, order: seq<Id>, parents: map<Id, Parent>, x: Id)
    requires KeptOk(g, q, kept, order, parents) && x in kept && NoRepeats(PriorityList(q))
    ensures x in g.nodes && (forall k | k != KScore :: k in kept[x] <==> k in g.nodes[x])
    ensures forall k | k in g.nodes[x] :: k in kept[x] && kept[x][k] == g.nodes[x][k]
    ensures KScore !in g.nodes[x] ==>
              && KScore in kept[x] && kept[x][KScore].Fraction?
              && IsScore(kept[x][KScore].r, PriorityList(q), if x in parents then Some(parents[x].via) else None)
  {
    hide EdgeBonus, PriorityList, NoRepeats, IsScore;
    assert x in g.nodes;
    if x in parents {
      BonusIsScore(PriorityList(q), parents[x].via);
    } else {
      SeedScore(PriorityList(q));
    }
  }

  lemma SeedScore(list: seq<EdgeType>)
    ensures IsScore(0.0, list, None)
  {
  }
}
