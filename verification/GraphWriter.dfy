/** The graph writer: every node it accepts stays traceable to a source span. */
module GraphWriter {
  import opened Wrappers
  import opened Ontology
  import opened StoreModel
  import opened GraphStore

  /** A court level as given, and in upper case. */
  datatype CourtLevel = CourtLevel(given: string, upper: string)

  datatype SourceEpisode = Episode(
    id: Id, kind: string, origin: string, ingestedAt: string, hash: string, matterId: Value, attribution: Value)

  datatype Span = Span(
    id: Id, episodeId: Id, fileId: Id, charStart: int, charEnd: int, page: Value, text: string,
    ocrConfidence: Value, matterId: Value)

  datatype WriterOp =
    | RegisterFile(fileId: Id, file: Props)
    | RegisterEpisode(episode: SourceEpisode)
    | RegisterSpan(span: Span)
    | Upsert(t: NodeType, id: Id, props: Props, spanId: Id, level: Option<CourtLevel>)
    | Link(edge: Edge)

  function EpisodeProps(e: SourceEpisode): Props {
    map[KKind := Text(e.kind), KOrigin := Text(e.origin), KIngestedAt := Text(e.ingestedAt), KHash := Text(e.hash),
        KMatterId := e.matterId, KAttribution := e.attribution]
  }

  function SpanProps(s: Span): Props {
    map[KEpisodeRef := Text(s.episodeId), KFileRef := Text(s.fileId), KCharStart := Number(s.charStart),
        KCharEnd := Number(s.charEnd), KPage := s.page, KText := Text(s.text), KOcrConfidence := s.ocrConfidence,
        KMatterId := s.matterId]
  }

  function Provenance(t: NodeType, id: Id, dstType: NodeType, dst: Id): Edge {
    Edge(NodeDerivedFromSource, id, dst, t, dstType, map[])
  }

  function Tiered(t: NodeType, props: Props, level: Option<CourtLevel>): Props {
    var upper := if level.Some? then Some(level.value.upper) else None;
    props[KAuthorityTier := Number(AuthorityTierFor(t, upper))]
         [KCourtLevel := if level.Some? then Text(level.value.given) else Null]
  }

  /** The store writes one call amounts to, in order. */
  function Writes(op: WriterOp): seq<StoreOp> {
    match op
    case RegisterFile(id, file) => [PutNode(File, id, file)]
    case RegisterEpisode(e) => [PutNode(NodeType.SourceEpisode, e.id, EpisodeProps(e))]
    case RegisterSpan(s) =>
      [PutNode(SourceSpan, s.id, SpanProps(s)),
       PutEdge(Provenance(SourceSpan, s.id, NodeType.SourceEpisode, s.episodeId))]
    case Upsert(t, id, props, spanId, level) =>
      [PutNode(t, id, Tiered(t, props, level)), PutEdge(Provenance(t, id, SourceSpan, spanId))]
    case Link(e) => [PutEdge(e)]
  }

  /** A call goes through when its validation does; otherwise it raises before anything is written. */
  predicate Admits(op: WriterOp) {
    match op
    case RegisterFile(_, file) => NodeAccepted(File, file)
    case RegisterEpisode(e) => NodeAccepted(NodeType.SourceEpisode, EpisodeProps(e))
    case RegisterSpan(s) => NodeAccepted(SourceSpan, SpanProps(s))
    case Upsert(t, _, props, _, _) => NodeAccepted(t, props)
    case Link(e) => EdgeAccepted(e.kind, e.srcType, e.dstType, e.props)
  }

  function AfterCall(g: Graph, op: WriterOp): Graph {
    if Admits(op) then Run(g, Writes(op)) else g
  }

  /** The tier and court level never stand in for a required property. */
  lemma TieringIsHarmless(t: NodeType, props: Props, level: Option<CourtLevel>)
    ensures NodeAccepted(t, Tiered(t, props, level)) <==> NodeAccepted(t, props)
  {
    hide RequiredProps, Blank, AuthorityTierFor;
    NeverRequired(t);
    var tiered := Tiered(t, props, level);
    forall k | k in RequiredProps(t) ensures Blank(tiered, k) <==> Blank(props, k) {
      OtherKeyKept(t, props, level, k);
    }
  }

  lemma NeverRequired(t: NodeType)
    ensures KAuthorityTier !in RequiredProps(t) && KCourtLevel !in RequiredProps(t)
  {
  }

  lemma OtherKeyKept(t: NodeType, props: Props, level: Option<CourtLevel>, k: Key)
    requires k != KAuthorityTier && k != KCourtLevel
    ensures Blank(Tiered(t, props, level), k) <==> Blank(props, k)
  {
    hide AuthorityTierFor;
  }

  lemma ProvenanceIsAccepted(t: NodeType, id: Id, dstType: NodeType, dst: Id)
    requires dstType in {SourceSpan, NodeType.SourceEpisode}
    ensures Accepts(PutEdge(Provenance(t, id, dstType, dst)))
  {
    ProvenanceEdgeAlwaysAccepted(t, dstType, map[]);
  }

  /** A call is all or nothing: if its first check passes, none of its writes is rejected. */
  lemma CallsAreAtomic(op: WriterOp)
    ensures Admits(op) <==> forall w | w in Writes(op) :: Accepts(w)
  {
    hide NodeAccepted, EdgeAccepted, EpisodeProps, SpanProps, Tiered, Provenance;
    match op
    case Upsert(t, id, props, spanId, level) =>
      TieringIsHarmless(t, props, level);
      ProvenanceIsAccepted(t, id, SourceSpan, spanId);
      var put, link := PutNode(t, id, Tiered(t, props, level)), PutEdge(Provenance(t, id, SourceSpan, spanId));
      assert Writes(op) == [put, link];
      assert put in Writes(op) && link in Writes(op);
    case RegisterSpan(s) =>
      ProvenanceIsAccepted(SourceSpan, s.id, NodeType.SourceEpisode, s.episodeId);
      var put, link := PutNode(SourceSpan, s.id, SpanProps(s)),
                       PutEdge(Provenance(SourceSpan, s.id, NodeType.SourceEpisode, s.episodeId));
      assert Writes(op) == [put, link];
      assert put in Writes(op) && link in Writes(op);
    case RegisterFile(id, file) => assert PutNode(File, id, file) in Writes(op);
    case RegisterEpisode(e) => assert PutNode(NodeType.SourceEpisode, e.id, EpisodeProps(e)) in Writes(op);
    case Link(e) => assert PutEdge(e) in Writes(op);
  }

  // ---------------------------------------------------------------------------
  // Provenance over whole runs
  // ---------------------------------------------------------------------------

  function AfterCalls(g: Graph, ops: seq<WriterOp>): Graph {
    if ops == [] then g else AfterCall(AfterCalls(g, ops[..|ops| - 1]), ops[|ops| - 1])
  }

  /** The store writes of a run: those of the calls that went through, in order. */
  function Log(ops: seq<WriterOp>): seq<StoreOp> {
    if ops == [] then []
    else
      var n := |ops| - 1;
      Log(ops[..n]) + (if Admits(ops[n]) then Writes(ops[n]) else [])
  }

  lemma {:induction false} RunAppend(g: Graph, a: seq<StoreOp>, b: seq<StoreOp>)
    ensures Run(g, a + b) == Run(Run(g, a), b)
    decreases |a|
  {
    hide After;
    if a == [] {
      assert a + b == b;
    } else {
      RunAppend(After(g, a[0]), a[1..], b);
      assert (a + b)[1..] == a[1..] + b;
    }
  }

  lemma {:induction false} CallsAreTheirLog(ops: seq<WriterOp>)
    ensures AfterCalls(EMPTY, ops) == Run(EMPTY, Log(ops))
  {
    hide Admits, Writes;
    if ops != [] {
      var n := |ops| - 1;
      CallsAreTheirLog(ops[..n]);
      RunAppend(EMPTY, Log(ops[..n]), Writes(ops[n]));
      assert Log(ops[..n]) + [] == Log(ops[..n]);
    }
  }

  lemma {:induction false} LogOfPrefix(ops: seq<WriterOp>, k: nat)
    requires k <= |ops|
    ensures Log(ops[..k]) <= Log(ops)
  {
    hide Admits, Writes;
    if k < |ops| {
      var n := |ops| - 1;
      LogOfPrefix(ops[..n], k);
      assert ops[..n][..k] == ops[..k];
    } else {
      assert ops[..k] == ops;
    }
  }

  lemma EarlierIsKept(ops: seq<WriterOp>, k: nat)
    requires k <= |ops|
    ensures Extends(AfterCalls(EMPTY, ops), AfterCalls(EMPTY, ops[..k]))
  {
    hide Extends, Consistent, Run, AfterCalls, Log;
    LogOfPrefix(ops, k);
    CallsAreTheirLog(ops);
    CallsAreTheirLog(ops[..k]);
    var early := Log(ops[..k]);
    var late := Log(ops)[|early|..];
    assert Log(ops) == early + late;
    RunAppend(EMPTY, early, late);
    ReachableConsistent(early);
    RunConsistent(Run(EMPTY, early), late);
  }

  lemma CallsStayConsistent(ops: seq<WriterOp>)
    ensures Consistent(AfterCalls(EMPTY, ops))
    ensures forall k | 0 <= k <= |ops| :: Extends(AfterCalls(EMPTY, ops), AfterCalls(EMPTY, ops[..k]))
  {
    hide Extends, Consistent, Run, AfterCalls, Log;
    CallsAreTheirLog(ops);
    ReachableConsistent(Log(ops));
    forall k | 0 <= k <= |ops| ensures Extends(AfterCalls(EMPTY, ops), AfterCalls(EMPTY, ops[..k])) {
      EarlierIsKept(ops, k);
    }
  }

  // ---------------------------------------------------------------------------
  // What is read back
  // ---------------------------------------------------------------------------

  /** The tier of a node, by its type and the court level given with it. */
  ghost predicate IsTier(tier: int, t: NodeType, level: Option<CourtLevel>) {
    match t
    case Constitution | Act | Amendment | Part | Chapter | Section | Subsection | Proviso | Explanation
      | Illustration | Rule | Regulation | Notification | Circular | Schedule | Offence | Ingredient
      | Punishment | Procedure | EvidenceRule => tier == 1
    case Matter | Document | Witness | Statement | Exhibit | Fact | TimelineEvent | Allegation | Defense
      | Contradiction | MedicalRecord | ForensicRecord | Notice | ContractClause | Communication => tier == 6
    case Argument => tier == 7
    case Case | Holding | Ratio | Obiter | Paragraph | Issue | LegalTest | Doctrine | Precedent | Relief
      | Outcome | ProceduralStage | Citation | Bench | Judge | Court | Party =>
      tier == (if level.None? then 3
               else if level.value.upper in ["SC", "SUPREME_COURT"] then 2
               else if level.value.upper in ["TRIBUNAL", "NCLAT", "NGT", "ITAT", "CAT"] then 4
               else if level.value.upper in ["LOWER", "DISTRICT", "SESSIONS", "MAGISTRATE"] then 5
               else 3)
    case _ => tier == 8
  }

  ghost predicate Reads(node: Props, k: Key, v: Value) {
    k in node && node[k] == v
  }

  /** The node holds every property given, under its own id and type, but for those the writer sets itself. */
  ghost predicate Carries(node: Props, given: Props, id: Id, t: NodeType, own: set<Key>) {
    && Reads(node, KId, Text(id)) && Reads(node, KNodeType, Tag(t))
    && forall k | k in given && k != KId && k != KNodeType && k !in own :: Reads(node, k, given[k])
  }

  ghost predicate WritesNode(op: WriterOp, id: Id) {
    match op
    case RegisterFile(f, _) => f == id
    case RegisterEpisode(e) => e.id == id
    case RegisterSpan(s) => s.id == id
    case Upsert(_, n, _, _, _) => n == id
    case Link(_) => false
  }

  /** The node says what the call gave, field by field. */
  ghost predicate Says(node: Props, op: WriterOp) {
    match op
    case RegisterFile(id, file) => Carries(node, file, id, File, {})
    case RegisterEpisode(e) =>
      && Reads(node, KId, Text(e.id)) && Reads(node, KNodeType, Tag(NodeType.SourceEpisode))
      && Reads(node, KKind, Text(e.kind)) && Reads(node, KOrigin, Text(e.origin))
      && Reads(node, KIngestedAt, Text(e.ingestedAt)) && Reads(node, KHash, Text(e.hash))
      && Reads(node, KMatterId, e.matterId) && Reads(node, KAttribution, e.attribution)
    case RegisterSpan(s) =>
      && Reads(node, KId, Text(s.id)) && Reads(node, KNodeType, Tag(SourceSpan))
      && Reads(node, KEpisodeRef, Text(s.episodeId)) && Reads(node, KFileRef, Text(s.fileId))
      && Reads(node, KCharStart, Number(s.charStart)) && Reads(node, KCharEnd, Number(s.charEnd))
      && Reads(node, KPage, s.page) && Reads(node, KText, Text(s.text))
      && Reads(node, KOcrConfidence, s.ocrConfidence) && Reads(node, KMatterId, s.matterId)
    case Upsert(t, id, props, _, level) =>
      && Carries(node, props, id, t, {KAuthorityTier, KCourtLevel})
      && (exists tier :: Reads(node, KAuthorityTier, Number(tier)) && IsTier(tier, t, level))
      && Reads(node, KCourtLevel, if level.Some? then Text(level.value.given) else Null)
    case Link(_) => true
  }

  lemma TierIsTold(t: NodeType, level: Option<CourtLevel>)
    ensures IsTier(AuthorityTierFor(t, if level.Some? then Some(level.value.upper) else None), t, level)
  {
  }

  lemma NodeIsPut(g: Graph, t: NodeType, id: Id, props: Props)
    requires NodeAccepted(t, props)
    ensures id in After(g, PutNode(t, id, props)).nodes
    ensures Carries(After(g, PutNode(t, id, props)).nodes[id], props, id, t, {})
  {
    hide NodeAccepted, EdgeAccepted, Indexed, WithNode;
  }

  lemma EdgeLeavesNodes(g: Graph, e: Edge, x: Id)
    requires x in g.nodes
    ensures x in After(g, PutEdge(e)).nodes && After(g, PutEdge(e)).nodes[x] == g.nodes[x]
  {
    hide NodeAccepted, EdgeAccepted, Indexed;
  }

  /** An accepted call puts the node that it names, and then at most draws an edge. */
  lemma CallPuts(g: Graph, op: WriterOp, id: Id, t: NodeType, props: Props)
    requires Admits(op) && NodeAccepted(t, props)
    requires Writes(op) == [PutNode(t, id, props)]
             || exists e :: Writes(op) == [PutNode(t, id, props), PutEdge(e)]
    ensures id in AfterCall(g, op).nodes && Carries(AfterCall(g, op).nodes[id], props, id, t, {})
  {
    hide Writes, Admits, NodeAccepted, Carries, After;
    NodeIsPut(g, t, id, props);
    var put := PutNode(t, id, props);
    if Writes(op) == [put] {
      RunOne(g, put);
    } else {
      var e :| Writes(op) == [put, PutEdge(e)];
      RunTwo(g, put, PutEdge(e));
      EdgeLeavesNodes(After(g, put), e, id);
    }
  }

  lemma IsCarried(node: Props, given: Props, id: Id, t: NodeType, k: Key, v: Value)
    requires Carries(node, given, id, t, {}) && Reads(given, k, v) && k != KId && k != KNodeType
    ensures Reads(node, k, v) && Reads(node, KId, Text(id)) && Reads(node, KNodeType, Tag(t))
  {
  }

  lemma EpisodeFields(e: SourceEpisode)
    ensures var p := EpisodeProps(e);
            && Reads(p, KKind, Text(e.kind)) && Reads(p, KOrigin, Text(e.origin))
            && Reads(p, KIngestedAt, Text(e.ingestedAt)) && Reads(p, KHash, Text(e.hash))
            && Reads(p, KMatterId, e.matterId) && Reads(p, KAttribution, e.attribution)
  {
  }

  lemma SpanFields(s: Span)
    ensures var p := SpanProps(s);
            && Reads(p, KEpisodeRef, Text(s.episodeId)) && Reads(p, KFileRef, Text(s.fileId))
            && Reads(p, KCharStart, Number(s.charStart)) && Reads(p, KCharEnd, Number(s.charEnd))
            && Reads(p, KPage, s.page) && Reads(p, KText, Text(s.text))
            && Reads(p, KOcrConfidence, s.ocrConfidence) && Reads(p, KMatterId, s.matterId)
  {
  }

  lemma TieredFields(t: NodeType, props: Props, level: Option<CourtLevel>, k: Key)
    ensures var p := Tiered(t, props, level);
            && Reads(p, KAuthorityTier,
                     Number(AuthorityTierFor(t, if level.Some? then Some(level.value.upper) else None)))
            && Reads(p, KCourtLevel, if level.Some? then Text(level.value.given) else Null)
            && (k in props && k !in {KAuthorityTier, KCourtLevel} ==> Reads(p, k, props[k]))
  {
    hide AuthorityTierFor;
  }

  lemma EpisodeIsTold(node: Props, e: SourceEpisode)
    requires Carries(node, EpisodeProps(e), e.id, NodeType.SourceEpisode, {})
    ensures Says(node, RegisterEpisode(e))
  {
    var p, t := EpisodeProps(e), NodeType.SourceEpisode;
    hide Reads;
    EpisodeFields(e);
    hide EpisodeProps, Carries;
    IsCarried(node, p, e.id, t, KKind, Text(e.kind));
    IsCarried(node, p, e.id, t, KOrigin, Text(e.origin));
    IsCarried(node, p, e.id, t, KIngestedAt, Text(e.ingestedAt));
    IsCarried(node, p, e.id, t, KHash, Text(e.hash));
    IsCarried(node, p, e.id, t, KMatterId, e.matterId);
    IsCarried(node, p, e.id, t, KAttribution, e.attribution);
  }

  lemma SpanIsTold(node: Props, s: Span)
    requires Carries(node, SpanProps(s), s.id, SourceSpan, {})
    ensures Says(node, RegisterSpan(s))
  {
    var p := SpanProps(s);
    hide Reads;
    SpanFields(s);
    hide SpanProps, Carries;
    IsCarried(node, p, s.id, SourceSpan, KEpisodeRef, Text(s.episodeId));
    IsCarried(node, p, s.id, SourceSpan, KFileRef, Text(s.fileId));
    IsCarried(node, p, s.id, SourceSpan, KCharStart, Number(s.charStart));
    IsCarried(node, p, s.id, SourceSpan, KCharEnd, Number(s.charEnd));
    IsCarried(node, p, s.id, SourceSpan, KPage, s.page);
    IsCarried(node, p, s.id, SourceSpan, KText, Text(s.text));
    IsCarried(node, p, s.id, SourceSpan, KOcrConfidence, s.ocrConfidence);
    IsCarried(node, p, s.id, SourceSpan, KMatterId, s.matterId);
  }

  lemma UpsertIsTold(node: Props, t: NodeType, id: Id, props: Props, spanId: Id, level: Option<CourtLevel>)
    requires Carries(node, Tiered(t, props, level), id, t, {})
    ensures Says(node, Upsert(t, id, props, spanId, level))
  {
    hide IsTier, AuthorityTierFor, Reads, Tiered;
    var tier := AuthorityTierFor(t, if level.Some? then Some(level.value.upper) else None);
    TierIsTold(t, level);
    var tiered := Tiered(t, props, level);
    forall k | k in props && k != KId && k != KNodeType && k !in {KAuthorityTier, KCourtLevel}
      ensures Reads(node, k, props[k])
    {
      TieredFields(t, props, level, k);
      IsCarried(node, tiered, id, t, k, props[k]);
    }
    TieredFields(t, props, level, KId);
    IsCarried(node, tiered, id, t, KAuthorityTier, Number(tier));
    IsCarried(node, tiered, id, t, KCourtLevel, if level.Some? then Text(level.value.given) else Null);
  }

  lemma CallSays(g: Graph, op: WriterOp, id: Id)
    requires Admits(op) && WritesNode(op, id)
    ensures id in AfterCall(g, op).nodes && Says(AfterCall(g, op).nodes[id], op)
  {
    hide NodeAccepted, EdgeAccepted, AfterCall, Carries, SpanProps, EpisodeProps, Tiered, IsTier, Reads;
    match op
    case RegisterFile(_, file) =>
      CallPuts(g, op, id, File, file);
      assert Says(AfterCall(g, op).nodes[id], op);
    case RegisterEpisode(e) =>
      CallPuts(g, op, id, NodeType.SourceEpisode, EpisodeProps(e));
      EpisodeIsTold(AfterCall(g, op).nodes[id], e);
    case RegisterSpan(s) =>
      CallPuts(g, op, id, SourceSpan, SpanProps(s));
      SpanIsTold(AfterCall(g, op).nodes[id], s);
    case Upsert(t, _, props, spanId, level) =>
      TieringIsHarmless(t, props, level);
      CallPuts(g, op, id, t, Tiered(t, props, level));
      UpsertIsTold(AfterCall(g, op).nodes[id], t, id, props, spanId, level);
  }

  /** A call that is refused or names other nodes leaves the node alone. */
  lemma OthersAreKept(g: Graph, op: WriterOp, x: Id)
    requires x in g.nodes && !(Admits(op) && WritesNode(op, x))
    ensures x in AfterCall(g, op).nodes && AfterCall(g, op).nodes[x] == g.nodes[x]
  {
    hide NodeAccepted, EdgeAccepted, Indexed, SpanProps, EpisodeProps, Tiered;
    if Admits(op) {
      var ws := Writes(op);
      hide Admits;
      if |ws| == 1 {
        assert ws == [ws[0]];
        RunOne(g, ws[0]);
      } else {
        assert ws == [ws[0], ws[1]];
        RunTwo(g, ws[0], ws[1]);
      }
    }
  }

  /**
   * What a call that went through wrote to a node is what the store says in the end, tier and court level
   * included, unless a later one wrote to the same node.
   */
  lemma {:induction false} StaysAsWritten(ops: seq<WriterOp>, k: nat, id: Id)
    requires k < |ops| && Admits(ops[k]) && WritesNode(ops[k], id)
    requires forall j | k < j < |ops| :: !(Admits(ops[j]) && WritesNode(ops[j], id))
    ensures id in AfterCalls(EMPTY, ops).nodes && Says(AfterCalls(EMPTY, ops).nodes[id], ops[k])
  {
    hide Admits, WritesNode, Says, AfterCall;
    var n := |ops| - 1;
    var before := AfterCalls(EMPTY, ops[..n]);
    if k == n {
      CallSays(before, ops[n], id);
    } else {
      StaysAsWritten(ops[..n], k, id);
      OthersAreKept(before, ops[n], id);
    }
  }

  lemma {:induction false} LoggedByCalls(ops: seq<WriterOp>, w: StoreOp)
    ensures w in Log(ops) <==> exists op :: op in ops && Admits(op) && w in Writes(op)
  {
    hide Admits, Writes;
    if ops != [] {
      var n := |ops| - 1;
      LoggedByCalls(ops[..n], w);
      assert forall op :: op in ops <==> op in ops[..n] || op == ops[n];
    }
  }

  lemma LogIsAccepted(ops: seq<WriterOp>)
    ensures forall w | w in Log(ops) :: Accepts(w)
  {
    hide Admits, Writes, Accepts, Log;
    forall w | w in Log(ops) ensures Accepts(w) {
      LoggedByCalls(ops, w);
      var op :| op in ops && Admits(op) && w in Writes(op);
      CallsAreAtomic(op);
    }
  }

  /** The type of the last node write to the id. */
  function LastWritten(ws: seq<StoreOp>, id: Id): Option<NodeType> {
    if ws == [] then None
    else
      var w := ws[|ws| - 1];
      if w.PutNode? && w.id == id then Some(w.t) else LastWritten(ws[..|ws| - 1], id)
  }

  /** The type under which the first edge to name the id names it. */
  function FirstNamed(ws: seq<StoreOp>, id: Id): Option<NodeType>
    decreases |ws|
  {
    if ws == [] then None
    else
      var w := ws[0];
      if w.PutEdge? && w.edge.src == id then Some(w.edge.srcType)
      else if w.PutEdge? && w.edge.dst == id then Some(w.edge.dstType)
      else FirstNamed(ws[1..], id)
  }

  /** The type the id ends up with: a node write always decides it, an edge only for an id nobody wrote. */
  function FinalType(ws: seq<StoreOp>, id: Id): Option<NodeType> {
    var written := LastWritten(ws, id);
    if written.Some? then written else FirstNamed(ws, id)
  }

  lemma {:induction false} FirstNamedAppend(ws: seq<StoreOp>, w: StoreOp, id: Id)
    ensures FirstNamed(ws + [w], id) == if FirstNamed(ws, id).Some? then FirstNamed(ws, id) else FirstNamed([w], id)
    decreases |ws|
  {
    if ws == [] {
      assert ws + [w] == [w];
    } else {
      FirstNamedAppend(ws[1..], w, id);
      assert (ws + [w])[1..] == ws[1..] + [w];
    }
  }

  /** The stored node at the id has the given type; without a type there is no node. */
  predicate HasType(g: Graph, id: Id, t: Option<NodeType>) {
    if t.None? then id !in g.nodes
    else id in g.nodes && KNodeType in g.nodes[id] && g.nodes[id][KNodeType] == Tag(t.value)
  }

  lemma WriteSetsType(g: Graph, ws: seq<StoreOp>, w: StoreOp, id: Id)
    requires Accepts(w) && HasType(g, id, FinalType(ws, id))
    ensures HasType(After(g, w), id, FinalType(ws + [w], id))
  {
    hide NodeAccepted, EdgeAccepted;
    FirstNamedAppend(ws, w, id);
    assert (ws + [w])[..|ws|] == ws;
  }

  lemma {:induction false} TypesAreFinal(ws: seq<StoreOp>, id: Id)
    requires forall w | w in ws :: Accepts(w)
    ensures HasType(Run(EMPTY, ws), id, FinalType(ws, id))
  {
    if ws != [] {
      hide HasType, FinalType, Accepts, After;
      var n := |ws| - 1;
      assert ws[n] in ws && forall w | w in ws[..n] :: w in ws;
      TypesAreFinal(ws[..n], id);
      WriteSetsType(Run(EMPTY, ws[..n]), ws[..n], ws[n], id);
      assert ws == ws[..n] + [ws[n]];
      RunAppend(EMPTY, ws[..n], [ws[n]]);
      RunOne(Run(EMPTY, ws[..n]), ws[n]);
    } else {
      assert HasType(EMPTY, id, None);
    }
  }

  lemma WriteAddsEdge(g: Graph, w: StoreOp, e: Edge)
    requires Accepts(w)
    ensures e in After(g, w).edges <==> e in g.edges || w == PutEdge(e)
  {
    hide NodeAccepted, EdgeAccepted, Indexed, WithNode;
  }

  lemma {:induction false} EdgesAreWritten(ws: seq<StoreOp>, e: Edge)
    requires forall w | w in ws :: Accepts(w)
    ensures e in Run(EMPTY, ws).edges <==> PutEdge(e) in ws
  {
    hide Accepts, After;
    if ws != [] {
      var n := |ws| - 1;
      assert ws[n] in ws && forall w | w in ws[..n] :: w in ws;
      EdgesAreWritten(ws[..n], e);
      WriteAddsEdge(Run(EMPTY, ws[..n]), ws[n], e);
      assert ws == ws[..n] + [ws[n]];
      RunAppend(EMPTY, ws[..n], [ws[n]]);
      RunOne(Run(EMPTY, ws[..n]), ws[n]);
    }
  }

  /** A call that went through and wrote this provenance edge of the node. */
  predicate TiesTo(op: WriterOp, id: Id, e: Edge) {
    Admits(op) && PutEdge(e) in Writes(op) && e.kind == NodeDerivedFromSource && e.src == id
  }

  predicate EndsAtSpan(g: Graph, e: Edge) {
    e.dst in g.nodes && IsSpanNode(g.nodes[e.dst])
  }

  lemma ResolvesByEdge(g: Graph, id: Id)
    ensures SpanOf(g, id).Some? <==>
            exists e :: e in g.edges && e.kind == NodeDerivedFromSource && e.src == id && EndsAtSpan(g, e)
  {
    hide FirstProvenance;
    if e :| e in g.edges && e.kind == NodeDerivedFromSource && e.src == id && EndsAtSpan(g, e) {
      var i :| 0 <= i < |g.edges| && g.edges[i] == e;
      assert IsProvenance(g, i, id);
    }
    if j: nat :| IsProvenance(g, j, id) {
      assert g.edges[j] in g.edges && EndsAtSpan(g, g.edges[j]);
    }
  }

  lemma SpanEndByType(g: Graph, e: Edge, t: Option<NodeType>)
    requires HasType(g, e.dst, t)
    ensures EndsAtSpan(g, e) <==> t == Some(SourceSpan)
  {
  }

  lemma EndsByCalls(ops: seq<WriterOp>, e: Edge)
    ensures e in AfterCalls(EMPTY, ops).edges <==> exists op :: op in ops && Admits(op) && PutEdge(e) in Writes(op)
    ensures EndsAtSpan(AfterCalls(EMPTY, ops), e) <==> FinalType(Log(ops), e.dst) == Some(SourceSpan)
  {
    hide Log, FinalType, Run, Writes, Admits, Accepts, AfterCalls, HasType, EndsAtSpan;
    CallsAreTheirLog(ops);
    LogIsAccepted(ops);
    TypesAreFinal(Log(ops), e.dst);
    SpanEndByType(AfterCalls(EMPTY, ops), e, FinalType(Log(ops), e.dst));
    EdgesAreWritten(Log(ops), e);
    LoggedByCalls(ops, PutEdge(e));
  }

  /** The edge a call draws, end by end. */
  ghost predicate Draws(op: WriterOp, e: Edge) {
    match op
    case RegisterFile(_, _) => false
    case RegisterEpisode(_) => false
    case RegisterSpan(s) =>
      && e.kind == NodeDerivedFromSource && e.props == map[]
      && e.src == s.id && e.srcType == SourceSpan && e.dst == s.episodeId && e.dstType == NodeType.SourceEpisode
    case Upsert(t, id, _, spanId, _) =>
      && e.kind == NodeDerivedFromSource && e.props == map[]
      && e.src == id && e.srcType == t && e.dst == spanId && e.dstType == SourceSpan
    case Link(e') => e == e'
  }

  /** The store has exactly the edges drawn by calls that went through. */
  lemma EdgesAreDrawn(ops: seq<WriterOp>, e: Edge)
    ensures e in AfterCalls(EMPTY, ops).edges <==> exists op :: op in ops && Admits(op) && Draws(op, e)
  {
    EndsByCalls(ops, e);
    hide AfterCalls, Admits, SpanProps, EpisodeProps, Tiered;
    forall op ensures PutEdge(e) in Writes(op) <==> Draws(op, e) {
    }
  }

  /**
   * Exactly when a node resolves to a source span, read off the calls alone: some call that went
   * through tied it to an id whose final type is that of a source span.
   */
  lemma ResolvesExactly(ops: seq<WriterOp>, id: Id)
    ensures SpanOf(AfterCalls(EMPTY, ops), id).Some? <==>
            exists op, e :: op in ops && TiesTo(op, id, e) && FinalType(Log(ops), e.dst) == Some(SourceSpan)
  {
    hide AfterCalls, Log, FinalType, Writes, Admits, SpanOf, EndsAtSpan;
    var g := AfterCalls(EMPTY, ops);
    ResolvesByEdge(g, id);
    if SpanOf(g, id).Some? {
      var e :| e in g.edges && e.kind == NodeDerivedFromSource && e.src == id && EndsAtSpan(g, e);
      EndsByCalls(ops, e);
      var op :| op in ops && Admits(op) && PutEdge(e) in Writes(op);
      assert TiesTo(op, id, e);
    }
    if op, e :| op in ops && TiesTo(op, id, e) && FinalType(Log(ops), e.dst) == Some(SourceSpan) {
      EndsByCalls(ops, e);
    }
  }

  /** However many calls follow, an accepted upsert resolves while its span id is typed as a source span. */
  lemma UpsertResolves(ops: seq<WriterOp>, k: nat)
    requires k < |ops| && ops[k].Upsert? && Admits(ops[k])
    requires FinalType(Log(ops), ops[k].spanId) == Some(SourceSpan)
    ensures SpanOf(AfterCalls(EMPTY, ops), ops[k].id).Some?
  {
    ResolvesExactly(ops, ops[k].id);
    var edge := Provenance(ops[k].t, ops[k].id, SourceSpan, ops[k].spanId);
    assert Writes(ops[k])[1] == PutEdge(edge);
    assert TiesTo(ops[k], ops[k].id, edge);
  }

  /** The node ids a store write may create or overwrite, with the type it gives them. */
  predicate Names(w: StoreOp, id: Id, t: NodeType) {
    match w
    case PutNode(t', id', _) => id == id' && t == t'
    case PutEdge(e) => (id == e.src && t == e.srcType) || (id == e.dst && t == e.dstType)
  }

  /** No write ever names one of the ids as anything but a source span. */
  ghost predicate Reserved(ops: seq<WriterOp>, spans: set<Id>) {
    forall op, w, s, t | op in ops && w in Writes(op) && s in spans && Names(w, s, t) :: t == SourceSpan
  }

  lemma {:induction false} LastWrittenIsNamed(ws: seq<StoreOp>, id: Id)
    ensures LastWritten(ws, id).Some? ==> exists w :: w in ws && Names(w, id, LastWritten(ws, id).value)
  {
    if ws != [] {
      var w := ws[|ws| - 1];
      assert w in ws && forall v | v in ws[..|ws| - 1] :: v in ws;
      LastWrittenIsNamed(ws[..|ws| - 1], id);
      if w.PutNode? && w.id == id {
        assert Names(w, id, w.t);
      }
    }
  }

  lemma {:induction false} FirstNamedIsNamed(ws: seq<StoreOp>, id: Id)
    ensures FirstNamed(ws, id).Some? ==> exists w :: w in ws && Names(w, id, FirstNamed(ws, id).value)
    ensures (exists w, t :: w in ws && w.PutEdge? && Names(w, id, t)) ==> FirstNamed(ws, id).Some?
    decreases |ws|
  {
    if ws != [] {
      var w := ws[0];
      assert w in ws && forall v :: v in ws <==> v == w || v in ws[1..];
      FirstNamedIsNamed(ws[1..], id);
      if w.PutEdge? && w.edge.src == id {
        assert Names(w, id, w.edge.srcType);
      } else if w.PutEdge? && w.edge.dst == id {
        assert Names(w, id, w.edge.dstType);
      }
    }
  }

  /** An id named at all, and only ever as a source span, ends up as one. */
  lemma ReservedIsFinal(ops: seq<WriterOp>, spans: set<Id>, op: WriterOp, e: Edge)
    requires Reserved(ops, spans) && op in ops && Admits(op) && PutEdge(e) in Writes(op) && e.dst in spans
    ensures FinalType(Log(ops), e.dst) == Some(SourceSpan)
  {
    hide Writes, Admits, LastWritten, FirstNamed, Log;
    LoggedByCalls(ops, PutEdge(e));
    LastWrittenIsNamed(Log(ops), e.dst);
    FirstNamedIsNamed(Log(ops), e.dst);
    assert Names(PutEdge(e), e.dst, e.dstType);
    var t := FinalType(Log(ops), e.dst).value;
    var w :| w in Log(ops) && Names(w, e.dst, t);
    LoggedByCalls(ops, w);
  }

  /**
   * However many calls follow, every node whose upsert was accepted resolves to a source span,
   * as long as no id used as a span is ever used for anything else.
   */
  lemma AcceptedNodesResolve(ops: seq<WriterOp>, spans: set<Id>, k: nat)
    requires k < |ops| && ops[k].Upsert? && Admits(ops[k])
    requires ops[k].spanId in spans && Reserved(ops, spans)
    ensures var r := SpanOf(AfterCalls(EMPTY, ops), ops[k].id); r.Some? && IsSpanNode(r.value)
  {
    var edge := Provenance(ops[k].t, ops[k].id, SourceSpan, ops[k].spanId);
    assert Writes(ops[k])[1] == PutEdge(edge);
    hide Writes, Admits, Reserved, Log, AfterCalls, FinalType;
    ReservedIsFinal(ops, spans, ops[k], edge);
    UpsertResolves(ops, k);
  }

  const SOME_FILE: Props := map[KStorageUri := Text("s3://f"), KSha256 := Text("0")]

  lemma RunOne(g: Graph, a: StoreOp)
    ensures Run(g, [a]) == After(g, a)
  {
    hide After;
    assert [a][1..] == [];
    assert Run(After(g, a), []) == After(g, a);
  }

  lemma RunTwo(g: Graph, a: StoreOp, b: StoreOp)
    ensures Run(g, [a, b]) == After(After(g, a), b)
  {
    hide After;
    var g1 := After(g, a);
    assert [a, b][1..] == [b] && [b][1..] == [];
    assert Run(After(g1, b), []) == After(g1, b);
    assert Run(g1, [b]) == After(g1, b);
  }

  lemma RejectedWriteIsIgnored(g: Graph, w: StoreOp)
    ensures !Accepts(w) ==> After(g, w) == g
  {
  }

  lemma OneUpsert(node: Id, span: Id) returns (g: Graph)
    requires node != span
    ensures Admits(Upsert(Doctrine, node, map[], span, None))
    ensures g == AfterCall(EMPTY, Upsert(Doctrine, node, map[], span, None))
    ensures g.edges == [Provenance(Doctrine, node, SourceSpan, span)]
    ensures span in g.nodes && g.nodes[span] == Stub(span, SourceSpan)
  {
    var up := Upsert(Doctrine, node, map[], span, None);
    assert Admits(up);
    CallsAreAtomic(up);
    hide NodeAccepted, EdgeAccepted, Tiered;
    var ws := Writes(up);
    assert ws[0] in ws && ws[1] in ws && ws == [ws[0], ws[1]];
    RunTwo(EMPTY, ws[0], ws[1]);
    g := AfterCall(EMPTY, up);
  }

  lemma SomeFileIsAdmitted(id: Id)
    ensures Admits(RegisterFile(id, SOME_FILE))
  {
    assert SOME_FILE[KStorageUri] != Text("") && SOME_FILE[KSha256] != Text("");
  }

  /** A run that falls outside the condition: a span id reused for a file leaves the earlier node without its source. */
  lemma ReusedSpanLosesProvenance(node: Id, span: Id)
    requires node != span
    ensures var up, file := Upsert(Doctrine, node, map[], span, None), RegisterFile(span, SOME_FILE);
            && Admits(up) && Admits(file)
            && SpanOf(AfterCall(EMPTY, up), node).Some?
            && SpanOf(AfterCall(AfterCall(EMPTY, up), file), node).None?
  {
    hide NodeAccepted, EdgeAccepted, Tiered, SOME_FILE, AfterCall, Admits, Accepts, Writes;
    var g1 := OneUpsert(node, span);
    assert IsProvenance(g1, 0, node);
    var g2 := OverwrittenByFile(g1, span);
    assert forall j :: !IsProvenance(g2, j, node);
  }

  lemma OverwrittenByFile(g: Graph, id: Id) returns (g': Graph)
    ensures Admits(RegisterFile(id, SOME_FILE)) && g' == AfterCall(g, RegisterFile(id, SOME_FILE))
    ensures g'.edges == g.edges && id in g'.nodes && !IsSpanNode(g'.nodes[id])
  {
    SomeFileIsAdmitted(id);
    hide NodeAccepted, SOME_FILE;
    RunOne(g, PutNode(File, id, SOME_FILE));
    g' := AfterCall(g, RegisterFile(id, SOME_FILE));
  }

  // ---------------------------------------------------------------------------
  // The writer
  // ---------------------------------------------------------------------------

  class GraphWriter {
    const neo: InMemoryGraphStore

    constructor (neo: InMemoryGraphStore)
      ensures this.neo == neo
    {
      this.neo := neo;
    }

    method RegisterSourceSpan(span: Span) returns (ok: bool)
      requires neo.Valid()
      modifies neo
      ensures neo.Valid() && ok == Admits(RegisterSpan(span))
      ensures neo.View() == AfterCall(old(neo.View()), RegisterSpan(span))
    {
      hide Consistent, NodeAccepted, EdgeAccepted, SpanProps, After;
      ghost var op := RegisterSpan(span);
      CallsAreAtomic(op);
      RunTwo(neo.View(), Writes(op)[0], Writes(op)[1]);
      assert Writes(op) == [Writes(op)[0], Writes(op)[1]];
      RejectedWriteIsIgnored(neo.View(), Writes(op)[0]);
      ok := neo.UpsertNode(SourceSpan, span.id, SpanProps(span));
      if !ok { return; }
      assert Writes(op)[1] in Writes(op);
      ok := neo.UpsertEdge(Provenance(SourceSpan, span.id, NodeType.SourceEpisode, span.episodeId));
    }

    /** Validate, set the authority tier, write the node, then tie it to its span. */
    method UpsertTyped(t: NodeType, id: Id, props: Props, spanId: Id, level: Option<CourtLevel>) returns (ok: bool)
      requires neo.Valid()
      modifies neo
      ensures neo.Valid() && ok == Admits(Upsert(t, id, props, spanId, level))
      ensures neo.View() == AfterCall(old(neo.View()), Upsert(t, id, props, spanId, level))
    {
      hide Consistent, NodeAccepted, EdgeAccepted, Tiered, After;
      ghost var op := Upsert(t, id, props, spanId, level);
      CallsAreAtomic(op);
      RunTwo(neo.View(), Writes(op)[0], Writes(op)[1]);
      assert Writes(op) == [Writes(op)[0], Writes(op)[1]];
      ok := NodeAccepted(t, props);
      if !ok { return; }
      assert Writes(op)[0] in Writes(op) && Writes(op)[1] in Writes(op);
      var node := neo.UpsertNode(t, id, Tiered(t, props, level));
      ok := neo.UpsertEdge(Provenance(t, id, SourceSpan, spanId));
    }

    method LinkNodes(edge: Edge) returns (ok: bool)
      requires neo.Valid()
      modifies neo
      ensures neo.Valid() && ok == Admits(Link(edge))
      ensures neo.View() == AfterCall(old(neo.View()), Link(edge))
    {
      hide Consistent, NodeAccepted, EdgeAccepted;
      ok := EdgeAccepted(edge.kind, edge.srcType, edge.dstType, edge.props);
      if !ok { return; }
      RunOne(neo.View(), PutEdge(edge));
      ok := neo.UpsertEdge(edge);
    }
  }
}
