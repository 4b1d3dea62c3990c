/** Bounded reachability: the reference that both graph walks are proved against. */
module Reachability {

  type Vertex = string
  type Succ = Vertex -> set<Vertex>

  function Image(succ: Succ, xs: set<Vertex>): set<Vertex> {
    set x, y | x in xs && y in succ(x) :: y
  }

  /** Everything at most `d` hops away from `start`. */
  function Reach(succ: Succ, start: set<Vertex>, d: nat): set<Vertex> {
    if d == 0 then start
    else Reach(succ, start, d - 1) + Image(succ, Reach(succ, start, d - 1))
  }

  ghost predicate IsDistance(succ: Succ, start: set<Vertex>, x: Vertex, d: nat) {
    x in Reach(succ, start, d) && (d > 0 ==> x !in Reach(succ, start, d - 1))
  }

  lemma {:induction false} ReachGrows(succ: Succ, start: set<Vertex>, m: nat, n: nat)
    requires m <= n
    ensures Reach(succ, start, m) <= Reach(succ, start, n)
    decreases n - m
  {
    if m < n { ReachGrows(succ, start, m + 1, n); }
  }

  lemma DistanceIsLeast(succ: Succ, start: set<Vertex>, x: Vertex, d: nat, n: nat)
    requires IsDistance(succ, start, x, d) && x in Reach(succ, start, n)
    ensures d <= n
  {
    if n < d { ReachGrows(succ, start, n, d - 1); }
  }

  /** A route: it begins in `start` and every step is a hop. */
  ghost predicate IsRoute(succ: Succ, start: set<Vertex>, p: seq<Vertex>) {
    && p != []
    && p[0] in start
    && forall i | 0 < i < |p| :: p[i] in succ(p[i - 1])
  }

  lemma {:induction false} RouteReaches(succ: Succ, start: set<Vertex>, p: seq<Vertex>)
    requires IsRoute(succ, start, p)
    ensures p[|p| - 1] in Reach(succ, start, |p| - 1)
  {
    if |p| == 1 {
    } else {
      var q := p[..|p| - 1];
      RouteReaches(succ, start, q);
      assert p[|p| - 1] in succ(q[|q| - 1]);
    }
  }

  lemma {:induction false} ReachHasRoute(succ: Succ, start: set<Vertex>, x: Vertex, d: nat) returns (p: seq<Vertex>)
    requires x in Reach(succ, start, d)
    ensures IsRoute(succ, start, p) && p[|p| - 1] == x && |p| <= d + 1
    decreases d
  {
    if d == 0 {
      p := [x];
    } else if x in Reach(succ, start, d - 1) {
      p := ReachHasRoute(succ, start, x, d - 1);
    } else {
      var w :| w in Reach(succ, start, d - 1) && x in succ(w);
      var q := ReachHasRoute(succ, start, w, d - 1);
      p := q + [x];
    }
  }

  /** The layered definition says the same as "some route of `d` hops, and none shorter". */
  lemma DistanceIsShortestRoute(succ: Succ, start: set<Vertex>, x: Vertex, d: nat)
    ensures IsDistance(succ, start, x, d) <==>
      && (exists p :: IsRoute(succ, start, p) && p[|p| - 1] == x && |p| == d + 1)
      && (forall p :: IsRoute(succ, start, p) && p[|p| - 1] == x ==> d + 1 <= |p|)
  {
    if IsDistance(succ, start, x, d) {
      forall p | IsRoute(succ, start, p) && p[|p| - 1] == x ensures d + 1 <= |p| {
        RouteReaches(succ, start, p);
        DistanceIsLeast(succ, start, x, d, |p| - 1);
      }
      var p := ReachHasRoute(succ, start, x, d);
      assert |p| == d + 1;
    }
    if p :| IsRoute(succ, start, p) && p[|p| - 1] == x && |p| == d + 1 {
      RouteReaches(succ, start, p);
      if d > 0 && x in Reach(succ, start, d - 1) {
        var q := ReachHasRoute(succ, start, x, d - 1);
      }
    }
  }

  /**
   * What a bounded walk promises about the vertices it kept and the depth it found each at:
   * true distances within the hop limit; everything, if the budget was not used up; and
   * otherwise only the outermost layer is incomplete.
   */
  ghost predicate BoundedWalk(succ: Succ, start: set<Vertex>, maxHops: nat, maxNodes: nat, depth: map<Vertex, nat>) {
    && (forall x | x in depth :: depth[x] <= maxHops && IsDistance(succ, start, x, depth[x]))
    && (|depth| < maxNodes ==> depth.Keys == Reach(succ, start, maxHops))
    && (forall x, d | x in depth && 0 <= d < depth[x] :: Reach(succ, start, d) <= depth.Keys)
  }

  /** Below the budget the promise pins the walk down completely. */
  lemma WalkIsDetermined(succ: Succ, start: set<Vertex>, maxHops: nat, n: nat, n': nat,
                         depth: map<Vertex, nat>, depth': map<Vertex, nat>)
    requires BoundedWalk(succ, start, maxHops, n, depth) && |depth| < n
    requires BoundedWalk(succ, start, maxHops, n', depth') && |depth'| < n'
    ensures depth == depth'
  {
    forall x | x in depth ensures depth[x] == depth'[x] {
      DistanceIsLeast(succ, start, x, depth[x], depth'[x]);
      DistanceIsLeast(succ, start, x, depth'[x], depth[x]);
    }
  }

  lemma {:induction false} SameHopsSameReach(succ: Succ, succ': Succ, start: set<Vertex>, d: nat)
    requires forall x | x in Reach(succ, start, d) :: succ(x) == succ'(x)
    ensures Reach(succ, start, d) == Reach(succ', start, d)
  {
    if d > 0 {
      SameHopsSameReach(succ, succ', start, d - 1);
    }
  }

  // ---------------------------------------------------------------------------
  // One layer after another
  // ---------------------------------------------------------------------------

  /**
   * A walk in progress at `level`: everything within `level` hops has been found, whatever has been
   * found is one hop further out at most, and each vertex found is either expanded or still waiting.
   */
  ghost predicate Layered(succ: Succ, start: set<Vertex>, maxHops: nat, depth: map<Vertex, nat>,
                          waiting: set<Vertex>, expanded: set<Vertex>, level: nat)
  {
    && (forall x | x in depth :: depth[x] <= maxHops && depth[x] <= level + 1 && IsDistance(succ, start, x, depth[x]))
    && waiting + expanded == depth.Keys
    && (forall x | x in waiting :: level <= depth[x])
    && (forall x | x in expanded :: depth[x] <= level)
    && Reach(succ, start, level) <= depth.Keys
  }

  ghost predicate Closed(succ: Succ, maxHops: nat, depth: map<Vertex, nat>, expanded: set<Vertex>) {
    forall x | x in expanded && x in depth && depth[x] < maxHops :: succ(x) <= depth.Keys
  }

  /** When only the next layer is waiting, the whole next layer has been found. */
  lemma NextLevel(succ: Succ, start: set<Vertex>, maxHops: nat, depth: map<Vertex, nat>,
                  waiting: set<Vertex>, expanded: set<Vertex>, level: nat)
    requires Layered(succ, start, maxHops, depth, waiting, expanded, level)
    requires Closed(succ, maxHops, depth, expanded)
    requires forall x | x in waiting :: depth[x] == level + 1
    requires level < maxHops
    ensures Layered(succ, start, maxHops, depth, waiting, expanded, level + 1)
  {
    forall y | y in Reach(succ, start, level + 1) ensures y in depth.Keys {
      if y !in Reach(succ, start, level) {
        var x :| x in Reach(succ, start, level) && y in succ(x);
        DistanceIsLeast(succ, start, x, depth[x], level);
        assert x in expanded;
      }
    }
  }

  lemma HopReaches(succ: Succ, start: set<Vertex>, d: nat, x: Vertex, y: Vertex)
    requires x in Reach(succ, start, d) && y in succ(x)
    ensures y in Reach(succ, start, d + 1)
  {
    assert y in Image(succ, Reach(succ, start, d));
  }

  lemma LastHop(succ: Succ, start: set<Vertex>, y: Vertex, d: nat) returns (x: Vertex)
    requires d > 0 && y in Reach(succ, start, d) && y !in Reach(succ, start, d - 1)
    ensures x in Reach(succ, start, d - 1) && y in succ(x)
  {
    x :| x in Reach(succ, start, d - 1) && y in succ(x);
  }

  lemma HopDistance(succ: Succ, start: set<Vertex>, level: nat, x: Vertex, y: Vertex)
    requires x in Reach(succ, start, level) && y in succ(x) && y !in Reach(succ, start, level)
    ensures IsDistance(succ, start, y, level + 1)
  {
    assert y in Image(succ, Reach(succ, start, level));
  }

  /** A new neighbour of a vertex at `level` lies exactly one layer further out. */
  lemma DiscoverKeeps(succ: Succ, start: set<Vertex>, maxHops: nat, depth: map<Vertex, nat>,
                      waiting: set<Vertex>, expanded: set<Vertex>, level: nat, x: Vertex, y: Vertex)
    requires Layered(succ, start, maxHops, depth, waiting, expanded, level)
    requires x in depth && depth[x] == level && level < maxHops
    requires y in succ(x) && y !in depth
    ensures Layered(succ, start, maxHops, depth[y := level + 1], waiting + {y}, expanded, level)
  {
    hide Reach;
    assert IsDistance(succ, start, x, level);
    HopDistance(succ, start, level, x, y);
    var depth' := depth[y := level + 1];
    assert depth'.Keys == depth.Keys + {y};
    assert waiting + {y} + expanded == (waiting + expanded) + {y};
  }

  lemma HopIsFound(succ: Succ, start: set<Vertex>, maxHops: nat, depth: map<Vertex, nat>, d: nat, x: Vertex, y: Vertex)
    requires Closed(succ, maxHops, depth, depth.Keys) && 0 < d <= maxHops
    requires x in depth && IsDistance(succ, start, x, depth[x]) && x in Reach(succ, start, d - 1) && y in succ(x)
    ensures y in depth
  {
    DistanceIsLeast(succ, start, x, depth[x], d - 1);
    hide Reach, IsDistance;
  }

  lemma NoHops(succ: Succ, start: set<Vertex>)
    ensures Reach(succ, start, 0) == start
  {
  }

  /** Nothing waiting and nothing missing: everything within the hop limit has been found. */
  lemma {:induction false} Exhausted(succ: Succ, start: set<Vertex>, maxHops: nat, depth: map<Vertex, nat>, d: nat)
    requires forall x | x in depth :: IsDistance(succ, start, x, depth[x])
    requires start <= depth.Keys
    requires Closed(succ, maxHops, depth, depth.Keys)
    requires d <= maxHops
    ensures Reach(succ, start, d) <= depth.Keys
    decreases d
  {
    if d > 0 {
      hide Reach, Closed, IsDistance;
      Exhausted(succ, start, maxHops, depth, d - 1);
      forall y | y in Reach(succ, start, d) ensures y in depth.Keys {
        if y !in Reach(succ, start, d - 1) {
          var x := LastHop(succ, start, y, d);
          HopIsFound(succ, start, maxHops, depth, d, x, y);
        }
      }
    } else {
      NoHops(succ, start);
    }
  }

  lemma LayeredIsBounded(succ: Succ, start: set<Vertex>, maxHops: nat, maxNodes: nat, depth: map<Vertex, nat>,
                         waiting: set<Vertex>, expanded: set<Vertex>, level: nat)
    requires Layered(succ, start, maxHops, depth, waiting, expanded, level)
    requires |depth| >= maxNodes || (waiting == {} && Closed(succ, maxHops, depth, expanded))
    ensures BoundedWalk(succ, start, maxHops, maxNodes, depth)
  {
    if |depth| < maxNodes {
      ReachGrows(succ, start, 0, level);
      Exhausted(succ, start, maxHops, depth, maxHops);
      forall x | x in depth ensures x in Reach(succ, start, maxHops) {
        ReachGrows(succ, start, depth[x], maxHops);
      }
    }
    forall x, d | x in depth && 0 <= d < depth[x] ensures Reach(succ, start, d) <= depth.Keys {
      ReachGrows(succ, start, d, level);
    }
  }
}
