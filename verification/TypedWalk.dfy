/**
 * The query-time walk: which nodes it may keep, which hops it follows, and in which order
 * it expands what it has found.
 */
module TypedWalk {
  import opened Wrappers
  import opened Ontology
  import opened StableSort
  import opened StoreModel
  import opened Reachability

  /** Edge types, most preferred first; a restrictive policy follows no others. */
  datatype Policy = Policy(priority: seq<EdgeType>, restrictive: bool)

  /**
   * One retrieval. `readDate` stands for the ISO date parser: `None` is its parse error.
   */
  datatype WalkQuery = WalkQuery(
    policy: Option<Policy>,
    matterScope: Option<string>,
    authorityCeiling: Option<int>,
    asOf: Option<string>,
    readDate: string -> Option<int>,
    maxHops: nat,
    maxNodes: nat,
    fanout: nat)

  const DEFAULT_PRIORITY: seq<EdgeType> := [
    ChapterContainsSection, SectionContainsSubsection, SectionHasProviso, SectionHasExplanation,
    SectionHasIllustration, SectionCrosswalkTo, SectionAmendedBy, SectionPrescribesPunishment,
    OffenceHasIngredient, CaseInterpretsSection, CaseCitesCase, CaseAppliesStatute,
    ParagraphSupportsHolding, HoldingResolvesIssue, DocumentContainsFact, ExhibitSupportsFact,
    WitnessStatesFact, FactLinkedToIngredient, FactLinkedToOffence, FactRelevantToIssue
  ]

  function PriorityList(q: WalkQuery): seq<EdgeType> {
    if q.policy.Some? then q.policy.value.priority else DEFAULT_PRIORITY
  }

  predicate Restrictive(q: WalkQuery) {
    q.policy.Some? && q.policy.value.restrictive
  }

  // ---------------------------------------------------------------------------
  // Admissibility
  // ---------------------------------------------------------------------------

  predicate DatedBefore(q: WalkQuery, a: string, b: string) {
    q.readDate(a).Some? && q.readDate(b).Some? && q.readDate(a).value < q.readDate(b).value
  }

  /** When the node ceases to hold; empty if it never does. */
  function ValidUntil(node: Props): string {
    if TextOf(node, KValidTo) != "" then TextOf(node, KValidTo) else TextOf(node, KValidityEnd)
  }

  /**
   * A private node is admissible only for a query scoped to its own matter, a node with a tier only up to the
   * ceiling, and one with an end of validity only for a date not after it; nothing else is excluded.
   */
  predicate Admissible(node: Props, q: WalkQuery): (ok: bool)
    ensures ok && TextOf(node, KMatterId) != "" ==> q.matterScope == Some(TextOf(node, KMatterId))
    ensures ok && q.authorityCeiling.Some? && TierOf(node).Some? ==> TierOf(node).value <= q.authorityCeiling.value
    ensures ok && q.asOf.Some? && q.asOf.value != "" && ValidUntil(node) != "" ==>
              !DatedBefore(q, ValidUntil(node), q.asOf.value)
    ensures !ok ==>
              || (TextOf(node, KMatterId) != "" && q.matterScope != Some(TextOf(node, KMatterId)))
              || (q.authorityCeiling.Some? && TierOf(node).Some? && TierOf(node).value > q.authorityCeiling.value)
              || (q.asOf.Some? && DatedBefore(q, ValidUntil(node), q.asOf.value))
  {
    var matter := TextOf(node, KMatterId);
    var scope := if q.matterScope.Some? then q.matterScope.value else "";
    var until := ValidUntil(node);
    if q.authorityCeiling.Some? && TierOf(node).Some? && TierOf(node).value > q.authorityCeiling.value then false
    else if matter != "" && scope != "" && matter != scope then false
    else if matter != "" && scope == "" then false
    else if q.asOf.Some? && q.asOf.value != "" && until != "" && DatedBefore(q, until, q.asOf.value) then false
    else true
  }

  /** When the node ceases to hold: by the one property, or without it by the other. */
  ghost predicate HoldsUntil(node: Props, d: string) {
    && d != ""
    && (TextOf(node, KValidTo) != "" ==> d == TextOf(node, KValidTo))
    && (TextOf(node, KValidTo) == "" ==> d == TextOf(node, KValidityEnd))
  }

  /** A node is inadmissible exactly for its tier, its matter, or because it has ceased to hold. */
  lemma AdmissibleExactly(node: Props, q: WalkQuery)
    ensures !Admissible(node, q) <==>
            || (q.authorityCeiling.Some? && TierOf(node).Some? && TierOf(node).value > q.authorityCeiling.value)
            || (TextOf(node, KMatterId) != "" && q.matterScope != Some(TextOf(node, KMatterId)))
            || exists d, now :: HoldsUntil(node, d) && q.asOf == Some(now) && now != "" && q.readDate(d).Some?
                 && q.readDate(now).Some? && q.readDate(d).value < q.readDate(now).value
  {
    hide TextOf, TierOf;
    var until := ValidUntil(node);
    assert until != "" ==> HoldsUntil(node, until);
    assert forall d | HoldsUntil(node, d) :: d == until;
  }

  predicate AdmissibleId(g: Graph, q: WalkQuery, id: Id) {
    id in g.nodes && Admissible(g.nodes[id], q)
  }

  // ---------------------------------------------------------------------------
  // Bonuses
  // ---------------------------------------------------------------------------

  /** Position in the priority list (the last one, if listed twice); unlisted types come after all listed ones. */
  function Rank(priority: seq<EdgeType>, kind: EdgeType): nat {
    if priority == [] then 999
    else if priority[|priority| - 1] == kind then |priority| - 1
    else Rank(priority[..|priority| - 1], kind)
  }

  function EdgeBonus(priority: seq<EdgeType>, kind: EdgeType): real {
    if kind !in priority then 0.1
    else
      var listed := |set k | k in priority|;
      1.0 - Rank(priority, kind) as real / (if listed > 1 then listed else 1) as real * 0.8
  }

  function AuthorityBonus(node: Props): real {
    var t := if TierOf(node).Some? then TierOf(node).value else 5;
    1.0 / (if t > 1 then t else 1) as real
  }

  lemma {:induction false} RankIsPlace(priority: seq<EdgeType>, kind: EdgeType)
    requires kind in priority
    ensures Rank(priority, kind) < |priority| && priority[Rank(priority, kind)] == kind
  {
    var n := |priority| - 1;
    if priority[n] != kind {
      assert priority == priority[..n] + [priority[n]];
      RankIsPlace(priority[..n], kind);
    }
  }

  lemma {:induction false} CountListed(priority: seq<EdgeType>)
    requires NoRepeats(priority)
    ensures |set k | k in priority| == |priority|
  {
    if priority != [] {
      var n := |priority| - 1;
      CountListed(priority[..n]);
      assert priority == priority[..n] + [priority[n]];
      assert (set k | k in priority) == (set k | k in priority[..n]) + {priority[n]};
      assert priority[n] !in set k | k in priority[..n];
    }
  }

  /**
   * In a list that names no type twice, an earlier type has the larger bonus, and every listed type more than
   * any other.
   */
  lemma BonusFollowsPriority(priority: seq<EdgeType>, i: nat, j: nat, other: EdgeType)
    requires NoRepeats(priority) && i < j < |priority| && other !in priority
    ensures EdgeBonus(priority, priority[i]) > EdgeBonus(priority, priority[j]) > EdgeBonus(priority, other)
  {
    CountListed(priority);
    RankIsPlace(priority, priority[i]);
    RankIsPlace(priority, priority[j]);
    var n := |priority| as real;
    BonusesFall(i as real, j as real, n);
  }

  lemma BonusesFall(a: real, b: real, n: real)
    requires 0.0 <= a <= b - 1.0 && b <= n - 1.0
    ensures 1.0 - a / n * 0.8 > 1.0 - b / n * 0.8 > 0.1
  {
    assert a / n * n == a && b / n * n == b;
    QuotientsOrder(a / n, b / n, n);
    QuotientsOrder(b / n, 1.0, n);
  }

  lemma QuotientsOrder(x: real, y: real, n: real)
    requires n > 0.0 && x * n < y * n
    ensures x < y
  {
  }

  /** A better authority has the larger bonus; the bonus is positive and at most 1. */
  lemma AuthorityBonusFalls(a: Props, b: Props)
    requires TierOf(a).Some? && TierOf(b).Some? && 1 <= TierOf(a).value < TierOf(b).value
    ensures 0.0 < AuthorityBonus(b) < AuthorityBonus(a) <= 1.0
  {
    var x, y := TierOf(a).value as real, TierOf(b).value as real;
    assert AuthorityBonus(a) * x == 1.0 && AuthorityBonus(b) * y == 1.0;
    InverseFalls(AuthorityBonus(a), AuthorityBonus(b), x, y);
  }

  lemma InverseFalls(u: real, v: real, x: real, y: real)
    requires 1.0 <= x < y && u * x == 1.0 && v * y == 1.0
    ensures 0.0 < v < u <= 1.0
  {
    PositiveFactor(u, x);
    PositiveFactor(v, y);
    assert u * x == v * x + v * (y - x);
    QuotientsOrder(v, u, x);
  }

  lemma PositiveFactor(u: real, x: real)
    requires x >= 1.0 && u * x == 1.0
    ensures 0.0 < u <= 1.0
  {
  }

  // ---------------------------------------------------------------------------
  // Hops
  // ---------------------------------------------------------------------------

  function ByPriority(priority: seq<EdgeType>): (Record, Record) -> bool {
    (a: Record, b: Record) => Rank(priority, a.kind) <= Rank(priority, b.kind)
  }

  /** The edges the walk may follow out of `x`. */
  function Candidates(g: Graph, q: WalkQuery, x: Id): seq<Record> {
    Neighbors(g, x, if Restrictive(q) then PriorityList(q) else [], AnyWay)
  }

  function Preferred(g: Graph, q: WalkQuery, x: Id): seq<Record> {
    Sort(Candidates(g, q, x), ByPriority(PriorityList(q)))
  }

  /** The neighbour records looked at when `x` is expanded: preferred edge types first, cut to the fan-out. */
  function Frontier(g: Graph, q: WalkQuery, x: Id): seq<Record> {
    var all := Preferred(g, q, x);
    if |all| <= q.fanout then all else all[..q.fanout]
  }

  predicate Eligible(r: Record, q: WalkQuery) {
    TextOf(r.node, KId) != "" && Admissible(r.node, q)
  }

  function TypedHops(g: Graph, q: WalkQuery): Succ {
    (x: Id) => set r | r in Frontier(g, q, x) && Eligible(r, q) :: TextOf(r.node, KId)
  }

  function TypedStart(g: Graph, q: WalkQuery, seeds: seq<Id>): set<Id> {
    set s | s in seeds && AdmissibleId(g, q, s)
  }

  lemma FrontierMeans(g: Graph, q: WalkQuery, x: Id)
    ensures var all := Sort(Neighbors(g, x, if Restrictive(q) then PriorityList(q) else [], AnyWay),
            ByPriority(PriorityList(q)));
            Frontier(g, q, x) == if |all| > q.fanout then all[..q.fanout] else all
  {
  }

  lemma EligibleMeans(r: Record, q: WalkQuery)
    ensures Eligible(r, q) <==> TextOf(r.node, KId) != "" && Admissible(r.node, q)
  {
  }

  /** The fan-out cut keeps the preferred edges: none that was cut ranks before one that was kept. */
  lemma CutKeepsPreferred(g: Graph, q: WalkQuery, x: Id, i: nat, j: nat)
    requires i < |Frontier(g, q, x)| <= j < |Preferred(g, q, x)|
    ensures multiset(Preferred(g, q, x)) == multiset(Candidates(g, q, x))
    ensures |Frontier(g, q, x)| == q.fanout
    ensures Rank(PriorityList(q), Frontier(g, q, x)[i].kind) <= Rank(PriorityList(q), Preferred(g, q, x)[j].kind)
  {
    var le := ByPriority(PriorityList(q));
    SortPermutes(Candidates(g, q, x), le);
    assert TotalPreorder(le, Candidates(g, q, x));
    SortOrdered(Candidates(g, q, x), le);
    assert le(Preferred(g, q, x)[i], Preferred(g, q, x)[j]);
  }

  /** Every record looked at is a stored edge, and carries the stored node at its other end. */
  lemma FrontierIsStored(g: Graph, q: WalkQuery, x: Id, r: Record) returns (e: Edge)
    requires EdgesWellFormed(g) && NodesCarryTheirId(g) && r in Frontier(g, q, x)
    ensures e in g.edges && Touches(e, x) && r == RecordOf(g, e, x)
    ensures TextOf(r.node, KId) == OtherEnd(e, x) && OtherEnd(e, x) in g.nodes && r.node == g.nodes[OtherEnd(e, x)]
  {
    var kinds := if Restrictive(q) then PriorityList(q) else [];
    assert r in Candidates(g, q, x) by {
      hide Candidates;
      SortElements(Candidates(g, q, x), ByPriority(PriorityList(q)));
    }
    assert r in Neighbors(g, x, kinds, AnyWay);
    NeighborsAre(g, x, kinds, AnyWay);
    hide EdgeAccepted, Neighbors, Candidates;
    e :| e in g.edges && Touches(e, x) && Selected(e, x, kinds, AnyWay) && r == RecordOf(g, e, x);
  }

  // ---------------------------------------------------------------------------
  // The priority queue
  // ---------------------------------------------------------------------------

  /** A heap entry; the bonuses are stored negated, so that the least entry is the best. */
  datatype Entry = Entry(depth: nat, authority: real, edge: real, counter: nat, id: Id)

  /** Tuple order: depth, then authority, then edge bonus, then order of arrival. */
  predicate Before(a: Entry, b: Entry) {
    || a.depth < b.depth
    || (a.depth == b.depth && a.authority < b.authority)
    || (a.depth == b.depth && a.authority == b.authority && a.edge < b.edge)
    || (a.depth == b.depth && a.authority == b.authority && a.edge == b.edge && a.counter < b.counter)
  }

  /** Entries stand in order of arrival, each with its own counter. */
  ghost predicate Arrivals(heap: seq<Entry>, counter: nat) {
    && (forall i | 0 <= i < |heap| :: heap[i].counter < counter)
    && (forall i, j | 0 <= i < j < |heap| :: heap[i].counter < heap[j].counter)
  }

  /** `rest` is the heap without its least entry. */
  ghost predicate Popped(heap: seq<Entry>, e: Entry, rest: seq<Entry>) {
    && multiset(heap) == multiset(rest) + multiset{e}
    && (forall o | o in rest :: Before(e, o))
  }

  ghost predicate LeastAt(heap: seq<Entry>, at: nat) {
    at < |heap| && forall j | 0 <= j < |heap| && j != at :: Before(heap[at], heap[j])
  }

  lemma CutOutLeast(heap: seq<Entry>, at: nat)
    requires LeastAt(heap, at)
    ensures Popped(heap, heap[at], heap[..at] + heap[at + 1..])
  {
    hide Before;
    var rest := heap[..at] + heap[at + 1..];
    assert heap == heap[..at] + [heap[at]] + heap[at + 1..];
    forall o | o in rest ensures Before(heap[at], o) {
      var k :| 0 <= k < |rest| && rest[k] == o;
      assert o == heap[if k < at then k else k + 1];
    }
  }

  lemma CutOutArrivals(heap: seq<Entry>, at: nat, counter: nat)
    requires Arrivals(heap, counter) && at < |heap|
    ensures Arrivals(heap[..at] + heap[at + 1..], counter)
  {
  }

  /** Takes out the least entry, as `heapq.heappop` does. */
  method PopLeast(heap: seq<Entry>, ghost counter: nat) returns (least: Entry, rest: seq<Entry>)
    requires heap != [] && Arrivals(heap, counter)
    ensures Arrivals(rest, counter)
    ensures Popped(heap, least, rest) && |rest| == |heap| - 1
  {
    var at := FindLeast(heap, counter);
    hide Before, Arrivals, Popped;
    CutOutLeast(heap, at);
    CutOutArrivals(heap, at, counter);
    least, rest := heap[at], heap[..at] + heap[at + 1..];
  }

  method FindLeast(heap: seq<Entry>, ghost counter: nat) returns (at: nat)
    requires heap != [] && Arrivals(heap, counter)
    ensures LeastAt(heap, at)
  {
    at := 0;
    for i := 1 to |heap|
      invariant 0 <= at < i
      invariant forall j | 0 <= j < i && j != at :: Before(heap[at], heap[j])
    {
      if Before(heap[i], heap[at]) { at := i; }
    }
  }
}
