/** When the query-time walk and the plain walk keep exactly the same nodes. */
module WalksAgree {
  import opened Wrappers
  import opened Ontology
  import opened StableSort
  import opened StoreModel
  import opened Reachability
  import opened PlainWalk
  import opened TypedWalk

  datatype QueryIntent =
    | StatuteLookup | CaseLawRetrieval | PrecedentTracing | OffenceIngredient | PunishmentLookup
    | ProcedureLookup | EvidenceRuleLookup | Crosswalk | AuthorityForIssue | PrivateEvidenceCross
    | Contradiction | Timeline | AuthorityConflict | Generic

  /** The edge preferences of each intent; intents not listed have no policy. */
  function PolicyFor(intent: QueryIntent): (p: Option<Policy>)
    ensures p.Some? && p.value.restrictive <==> intent == QueryIntent.Crosswalk
  {
    match intent
    case StatuteLookup => Some(Policy([
        ChapterContainsSection, SectionContainsSubsection, SectionHasProviso, SectionHasExplanation,
        SectionHasIllustration, SectionCrosswalkTo, SectionAmendedBy], false))
    case Crosswalk => Some(Policy([SectionCrosswalkTo, SectionContainsSubsection, ChapterContainsSection], true))
    case OffenceIngredient => Some(Policy([
        OffenceHasIngredient, SectionPrescribesPunishment, CaseInterpretsSection], false))
    case PunishmentLookup => Some(Policy([
        SectionPrescribesPunishment, SectionContainsSubsection, SectionHasProviso, CaseInterpretsSection], false))
    case ProcedureLookup => Some(Policy([
        ProcedureGovernedBySection, CaseAppliesStatute, ChapterContainsSection], false))
    case EvidenceRuleLookup => Some(Policy([
        EvidenceRuleGovernedBySection, SectionHasExplanation, CaseInterpretsSection], false))
    case CaseLawRetrieval => Some(Policy([
        CaseInterpretsSection, ParagraphSupportsHolding, HoldingResolvesIssue, CaseCitesCase,
        CaseFollowsCase, CaseOverrulesCase, CaseDistinguishesCase], false))
    case PrecedentTracing => Some(Policy([
        CaseCitesCase, CaseFollowsCase, CaseDistinguishesCase, CaseOverrulesCase, ParagraphSupportsHolding], false))
    case PrivateEvidenceCross => Some(Policy([
        DocumentContainsFact, ExhibitSupportsFact, ExhibitContradictsFact, WitnessStatesFact,
        FactLinkedToIngredient, FactLinkedToOffence, FactRelevantToIssue, FactOccursAtTime], false))
    case Contradiction => Some(Policy([
        ExhibitContradictsFact, ArgumentContradictsArgument, WitnessStatesFact, DocumentContainsFact], false))
    case Timeline => Some(Policy([FactOccursAtTime, DocumentContainsFact, WitnessStatesFact], false))
    case _ => None
  }

  /** No list of preferences names an edge type twice. */
  lemma PreferencesNameOnce(q: WalkQuery, intent: QueryIntent)
    requires q.policy == PolicyFor(intent)
    ensures NoRepeats(PriorityList(q)) && |PriorityList(q)| <= 999
  {
    if PolicyFor(intent).Some? {
      PolicyNamesOnce(intent);
    } else {
      DefaultNamesOnce();
    }
  }

  lemma PolicyNamesOnce(intent: QueryIntent)
    requires PolicyFor(intent).Some?
    ensures NoRepeats(PolicyFor(intent).value.priority)
  {
    var list := PolicyFor(intent).value.priority;
    forall i, j | 0 <= i < j < |list| ensures list[i] != list[j] {
    }
  }

  lemma DefaultNamesOnce()
    ensures NoRepeats(DEFAULT_PRIORITY)
  {
    var list := DEFAULT_PRIORITY;
    forall i, j | 0 <= i < j < |list| ensures list[i] != list[j] {
    }
  }

  /** The settings under which both walks may follow the same hops. */
  ghost predicate Comparable(g: Graph, q: WalkQuery) {
    && !Restrictive(q)
    && q.matterScope.Some?
    && (q.authorityCeiling.Some? ==> q.authorityCeiling.value >= 0)
    && (q.asOf == None || q.asOf == Some(""))
    && "" !in g.nodes
    && (forall x :: |Scan(g.edges, x)| <= q.fanout)
  }

  lemma SameNodesAllowed(node: Props, q: WalkQuery)
    requires q.matterScope.Some? && (q.authorityCeiling.Some? ==> q.authorityCeiling.value >= 0)
    requires q.asOf == None || q.asOf == Some("")
    ensures Admissible(node, q) <==> Visible(node, q.authorityCeiling, q.matterScope)
  {
  }

  lemma NothingIsCut(g: Graph, q: WalkQuery, x: Id, r: Record)
    requires Comparable(g, q)
    ensures r in Frontier(g, q, x) <==> r in Neighbors(g, x, [], AnyWay)
  {
    ScanLists(g.edges, x);
    RecordsAre(g, Scan(g.edges, x), x, [], AnyWay);
    hide Scan, Records;
    SortElements(Neighbors(g, x, [], AnyWay), ByPriority(PriorityList(q)));
    assert |Neighbors(g, x, [], AnyWay)| <= |Scan(g.edges, x)| <= q.fanout;
  }

  lemma SameHops(g: Graph, q: WalkQuery, x: Id)
    requires EdgesWellFormed(g) && NodesCarryTheirId(g) && Comparable(g, q)
    ensures TypedHops(g, q)(x) == PlainHops(g, q.authorityCeiling, q.matterScope)(x)
  {
    var plain := PlainHops(g, q.authorityCeiling, q.matterScope)(x);
    hide EdgeAccepted, Scan, Neighbors, Frontier, Admissible, Visible;
    forall y | y in TypedHops(g, q)(x) ensures y in plain {
      var r :| r in Frontier(g, q, x) && Eligible(r, q) && TextOf(r.node, KId) == y;
      var e := FrontierIsStored(g, q, x, r);
      SameNodesAllowed(r.node, q);
    }
    forall y | y in plain ensures y in TypedHops(g, q)(x) {
      var e :| e in g.edges && Touches(e, x) && OtherEnd(e, x) == y;
      var r := RecordOf(g, e, x);
      assert Selected(e, x, [], AnyWay);
      NeighborsAre(g, x, [], AnyWay);
      NothingIsCut(g, q, x, r);
      SameNodesAllowed(r.node, q);
      assert Eligible(r, q) && TextOf(r.node, KId) == y;
    }
  }

  /** Same seeds, same nodes, and every node at the same depth, whenever neither walk runs out of budget. */
  lemma WalksAgree(g: Graph, q: WalkQuery, seeds: seq<Id>, plainBudget: nat,
                   typed: map<Id, nat>, plain: map<Id, nat>)
    requires Consistent(g) && Comparable(g, q)
    requires BoundedWalk(TypedHops(g, q), TypedStart(g, q, seeds), q.maxHops, q.maxNodes, typed)
    requires BoundedWalk(PlainHops(g, q.authorityCeiling, q.matterScope),
                         PlainStart(g, q.authorityCeiling, q.matterScope, seeds), q.maxHops, plainBudget, plain)
    requires |typed| < q.maxNodes && |plain| < plainBudget
    ensures typed == plain
  {
    var typedHops, plainHops := TypedHops(g, q), PlainHops(g, q.authorityCeiling, q.matterScope);
    var start := TypedStart(g, q, seeds);
    assert start == PlainStart(g, q.authorityCeiling, q.matterScope, seeds) by {
      forall s | s in g.nodes ensures AdmissibleId(g, q, s) <==> VisibleId(g, q.authorityCeiling, q.matterScope, s) {
        SameNodesAllowed(g.nodes[s], q);
      }
    }
    forall x ensures typedHops(x) == plainHops(x) {
      SameHops(g, q, x);
    }
    hide Consistent, Comparable, TypedHops, PlainHops, TypedStart, PlainStart;
    forall d: nat ensures Reach(typedHops, start, d) == Reach(plainHops, start, d) {
      SameHopsSameReach(typedHops, plainHops, start, d);
    }
    SameReachSameWalk(typedHops, plainHops, start, q.maxHops, plainBudget, plain);
    WalkIsDetermined(typedHops, start, q.maxHops, q.maxNodes, plainBudget, typed, plain);
  }

  lemma SameReachSameWalk(succ: Succ, succ': Succ, start: set<Vertex>, maxHops: nat, maxNodes: nat, depth: map<Vertex,
                          nat>)
    requires forall d: nat :: Reach(succ, start, d) == Reach(succ', start, d)
    requires BoundedWalk(succ', start, maxHops, maxNodes, depth)
    ensures BoundedWalk(succ, start, maxHops, maxNodes, depth)
  {
    hide Reach;
  }
}
