/**
 * Node and edge types, property dictionaries, and the checks every graph write passes.
 *
 * An enum member stands for its own string value. A property dictionary is a map from
 * property names; the names the program itself reads have constructors of their own and
 * every other name is `KOther`.
 */
module Ontology {
  import opened Wrappers

  datatype NodeType =
    | Constitution | Act | Amendment | Part | Chapter | Section | Subsection | Proviso | Explanation
    | Illustration | Rule | Regulation | Notification | Circular | Schedule | Case | Court | Bench | Judge
    | Party | Citation | Paragraph | Holding | Ratio | Obiter | Issue | LegalTest | Doctrine | Precedent
    | ProceduralStage | Relief | Outcome | Offence | Ingredient | Punishment | Procedure | Requirement
    | StandardOfProof | EvidenceRule | EvidentiaryIssue | Matter | Document | Witness | Statement | Exhibit
    | Fact | TimelineEvent | Allegation | Defense | Argument | Contradiction | MedicalRecord | ForensicRecord
    | Notice | ContractClause | Communication | SourceEpisode | SourceSpan | File | Chunk | ExtractedClaim
    | SummaryNode | Crosswalk | Jurisdiction | ValidityPeriod

  datatype EdgeType =
    | ActContainsPart | ActContainsChapter | ChapterContainsSection | SectionContainsSubsection
    | SectionHasProviso | SectionHasExplanation | SectionHasIllustration | ActHasSchedule | SectionAmendedBy
    | SectionRepealedBy | SectionCrosswalkTo | NodeHasValidity | CaseCitesCase | CaseDistinguishesCase
    | CaseFollowsCase | CaseOverrulesCase | CaseInterpretsSection | CaseAppliesStatute
    | CaseReferencesDoctrine | ParagraphSupportsHolding | HoldingResolvesIssue | IssueInvolvesDoctrine
    | OffenceHasIngredient | SectionPrescribesPunishment | ProcedureGovernedBySection
    | EvidenceRuleGovernedBySection | DocumentBelongsToMatter | DocumentHasConfidentiality
    | DocumentContainsFact | WitnessStatesFact | ExhibitSupportsFact | ExhibitContradictsFact
    | FactRelevantToIssue | FactLinkedToOffence | FactLinkedToIngredient | FactOccursAtTime
    | ArgumentSupportsPosition | ArgumentContradictsArgument | SourceSpanSupportsClaim | ClaimTracedToEpisode
    | NodeDerivedFromSource | NodeSummarizesNeighborhood

  datatype Key =
    | KId | KNodeType | KAuthorityTier | KCourtLevel | KValidTo | KValidityEnd | KAsOf | KValidityPeriodRef
    | KScore | KPage | KOcrConfidence | KAttribution | KShortTitle | KHeading | KCitation | KCourt | KDate
    | KExcerpt | KSourceSpanId | KEpisodeId | KFileId | KJurisdiction | KAmendingAct | KDateEnforced
    | KNumber | KActRef | KSectionRef | KParentRef | KTitle | KCourtRef | KDecisionDate | KName | KLevel
    | KText | KCaseRef | KGoverningSectionRef | KDescription | KOffenceRef | KKind | KMatterId | KMatterRef
    | KFilename | KLabel | KDocumentRef | KOrigin | KIngestedAt | KHash | KEpisodeRef | KFileRef | KCharStart
    | KCharEnd | KStorageUri | KSha256 | KStart | KOther(name: string)

  datatype Value =
    | Null
    | Text(s: string)
    | Number(n: int)
    | Fraction(r: real)
    | Tag(t: NodeType)
    | Listing(items: seq<Value>)

  type Id = string
  type Props = map<Key, Value>

  // ---------------------------------------------------------------------------
  // Edge schemas
  // ---------------------------------------------------------------------------

  /** The allowed endpoint types, and whether the edge must be dated. */
  datatype EdgeSchema = Schema(src: set<NodeType>, dst: set<NodeType>, temporal: bool) {
    predicate Permits(srcType: NodeType, dstType: NodeType) {
      srcType in src && dstType in dst
    }
  }

  const ANY_NODE: set<NodeType> := set t: NodeType | true

  function SchemaOf(e: EdgeType): EdgeSchema {
    match e
    case ActContainsPart => Schema({Act}, {Part}, false)
    case ActContainsChapter => Schema({Act, Part}, {Chapter}, false)
    case ChapterContainsSection => Schema({Chapter, Part, Act}, {Section}, false)
    case SectionContainsSubsection => Schema({Section}, {Subsection}, false)
    case SectionHasProviso => Schema({Section, Subsection}, {Proviso}, false)
    case SectionHasExplanation => Schema({Section, Subsection}, {Explanation}, false)
    case SectionHasIllustration => Schema({Section, Subsection}, {Illustration}, false)
    case ActHasSchedule => Schema({Act}, {Schedule}, false)
    case SectionAmendedBy => Schema({Section, Subsection}, {Amendment}, true)
    case SectionRepealedBy => Schema({Section, Subsection, Act}, {Amendment, Act}, true)
    case SectionCrosswalkTo => Schema({Section}, {Section}, true)
    case NodeHasValidity => Schema(ANY_NODE, {ValidityPeriod}, true)
    case CaseCitesCase => Schema({Case}, {Case}, false)
    case CaseDistinguishesCase => Schema({Case}, {Case}, false)
    case CaseFollowsCase => Schema({Case}, {Case}, false)
    case CaseOverrulesCase => Schema({Case}, {Case}, false)
    case CaseInterpretsSection => Schema({Case, Paragraph, Holding}, {Section, Subsection, Proviso}, false)
    case CaseAppliesStatute => Schema({Case}, {Act}, false)
    case CaseReferencesDoctrine => Schema({Case}, {Doctrine}, false)
    case ParagraphSupportsHolding => Schema({Paragraph}, {Holding}, false)
    case HoldingResolvesIssue => Schema({Holding}, {Issue}, false)
    case IssueInvolvesDoctrine => Schema({Issue}, {Doctrine}, false)
    case OffenceHasIngredient => Schema({Offence}, {Ingredient}, false)
    case SectionPrescribesPunishment => Schema({Section, Subsection}, {Punishment}, false)
    case ProcedureGovernedBySection => Schema({Procedure}, {Section, Subsection}, false)
    case EvidenceRuleGovernedBySection => Schema({EvidenceRule}, {Section, Subsection}, false)
    case DocumentBelongsToMatter => Schema({Document}, {Matter}, false)
    case DocumentHasConfidentiality => Schema({Document}, {Document}, false)
    case DocumentContainsFact => Schema({Document}, {Fact}, false)
    case WitnessStatesFact => Schema({Witness, Statement}, {Fact}, false)
    case ExhibitSupportsFact => Schema({Exhibit}, {Fact}, false)
    case ExhibitContradictsFact => Schema({Exhibit}, {Fact}, false)
    case FactRelevantToIssue => Schema({Fact}, {Issue, Ingredient}, false)
    case FactLinkedToOffence => Schema({Fact}, {Offence}, false)
    case FactLinkedToIngredient => Schema({Fact}, {Ingredient}, false)
    case FactOccursAtTime => Schema({Fact}, {TimelineEvent}, false)
    case ArgumentSupportsPosition => Schema({Argument}, {Issue, Allegation, Defense}, false)
    case ArgumentContradictsArgument => Schema({Argument}, {Argument}, false)
    case SourceSpanSupportsClaim => Schema({SourceSpan}, {ExtractedClaim}, false)
    case ClaimTracedToEpisode => Schema({ExtractedClaim}, {SourceEpisode}, false)
    case NodeDerivedFromSource => Schema(ANY_NODE, {SourceSpan, SourceEpisode}, false)
    case NodeSummarizesNeighborhood => Schema({SummaryNode}, ANY_NODE, false)
  }

  // ---------------------------------------------------------------------------
  // Required properties
  // ---------------------------------------------------------------------------

  function RequiredProps(t: NodeType): set<Key> {
    match t
    case Act => {KShortTitle, KJurisdiction}
    case Amendment => {KAmendingAct, KDateEnforced}
    case Section => {KNumber, KActRef}
    case Subsection => {KNumber, KSectionRef}
    case Proviso => {KParentRef}
    case Explanation => {KParentRef}
    case Illustration => {KParentRef}
    case Case => {KTitle, KCourtRef, KDecisionDate}
    case Court => {KName, KLevel}
    case Judge => {KName}
    case Citation => {KText}
    case Paragraph => {KNumber, KCaseRef}
    case Offence => {KName, KGoverningSectionRef}
    case Ingredient => {KDescription, KOffenceRef}
    case Punishment => {KKind, KSectionRef}
    case Matter => {KMatterId, KTitle}
    case Document => {KMatterRef, KFilename, KKind}
    case Witness => {KName, KMatterRef}
    case Exhibit => {KLabel, KDocumentRef}
    case Fact => {KDescription, KMatterRef}
    case SourceEpisode => {KKind, KOrigin, KIngestedAt, KHash}
    case SourceSpan => {KEpisodeRef, KFileRef, KCharStart, KCharEnd}
    case File => {KStorageUri, KSha256}
    case ValidityPeriod => {KStart}
    case _ => {}
  }

  /** A property counts as missing when it is absent, null, an empty string or an empty list. */
  predicate Blank(props: Props, k: Key) {
    k !in props || props[k] in {Null, Text(""), Listing([])}
  }

  predicate NodeAccepted(t: NodeType, props: Props) {
    forall k | k in RequiredProps(t) :: !Blank(props, k)
  }

  predicate EdgeAccepted(e: EdgeType, srcType: NodeType, dstType: NodeType, props: Props) {
    && SchemaOf(e).Permits(srcType, dstType)
    && (SchemaOf(e).temporal ==> KAsOf in props || KValidityPeriodRef in props)
  }

  ghost predicate Temporal(e: EdgeType) {
    e == SectionAmendedBy || e == SectionRepealedBy || e == SectionCrosswalkTo || e == NodeHasValidity
  }

  /** Amendments, repeals, crosswalks and validities must be dated, and no other edge. */
  lemma DatedExactly(e: EdgeType, srcType: NodeType, dstType: NodeType, props: Props)
    requires SchemaOf(e).Permits(srcType, dstType)
    ensures EdgeAccepted(e, srcType, dstType, props) <==>
            (Temporal(e) ==> KAsOf in props || KValidityPeriodRef in props)
  {
    TemporalIs(e);
    hide SchemaOf, ANY_NODE, EdgeSchema.Permits, Temporal;
  }

  lemma TemporalIs(e: EdgeType)
    ensures SchemaOf(e).temporal <==> Temporal(e)
  {
  }

  /** Provenance edges run from any node type to a span or an episode, and are never dated. */
  lemma ProvenanceEdgeAlwaysAccepted(t: NodeType, dst: NodeType, props: Props)
    ensures EdgeAccepted(NodeDerivedFromSource, t, dst, props) <==> dst in {SourceSpan, SourceEpisode}
  {
    hide SchemaOf, ANY_NODE;
    ProvenanceSchema();
    AnyNodeHasAll(t);
    UndatedSchema(NodeDerivedFromSource, t, dst, props);
    hide EdgeAccepted;
  }

  lemma UndatedSchema(e: EdgeType, t: NodeType, dst: NodeType, props: Props)
    requires t in SchemaOf(e).src && !SchemaOf(e).temporal
    ensures EdgeAccepted(e, t, dst, props) <==> dst in SchemaOf(e).dst
  {
    hide SchemaOf;
  }

  lemma ProvenanceSchema()
    ensures SchemaOf(NodeDerivedFromSource).src == ANY_NODE && !SchemaOf(NodeDerivedFromSource).temporal
    ensures SchemaOf(NodeDerivedFromSource).dst == {SourceSpan, SourceEpisode}
  {
    hide ANY_NODE;
  }

  lemma AnyNodeHasAll(t: NodeType)
    ensures t in ANY_NODE
  {
  }

  // ---------------------------------------------------------------------------
  // Authority tiers
  // ---------------------------------------------------------------------------

  const CONSTITUTION_STATUTE := 1
  const SUPREME_COURT := 2
  const HIGH_COURT := 3
  const TRIBUNAL := 4
  const LOWER_COURT := 5
  const PRIVATE_CASE_DOC := 6
  const PRIVATE_NOTE := 7
  const AI_SUMMARY := 8

  /** Node types whose tier does not depend on a court. */
  function FixedTier(t: NodeType): Option<int> {
    match t
    case Constitution | Act | Amendment | Part | Chapter | Section | Subsection | Proviso | Explanation
      | Illustration | Rule | Regulation | Notification | Circular | Schedule | Offence | Ingredient
      | Punishment | Procedure | EvidenceRule => Some(CONSTITUTION_STATUTE)
    case Matter | Document | Witness | Statement | Exhibit | Fact | TimelineEvent | Allegation | Defense
      | Contradiction | MedicalRecord | ForensicRecord | Notice | ContractClause | Communication =>
      Some(PRIVATE_CASE_DOC)
    case Argument => Some(PRIVATE_NOTE)
    case SummaryNode | ExtractedClaim => Some(AI_SUMMARY)
    case _ => None
  }

  predicate Judicial(t: NodeType) {
    match t
    case Case | Holding | Ratio | Obiter | Paragraph | Issue | LegalTest | Doctrine | Precedent | Relief
      | Outcome | ProceduralStage | Citation | Bench | Judge | Court | Party => true
    case _ => false
  }

  /** Tier of a court level, after the level has been upper-cased; unknown levels count as a High Court. */
  function CourtTier(level: string): int {
    if level in {"SC", "SUPREME_COURT"} then SUPREME_COURT
    else if level in {"TRIBUNAL", "NCLAT", "NGT", "ITAT", "CAT"} then TRIBUNAL
    else if level in {"LOWER", "DISTRICT", "SESSIONS", "MAGISTRATE"} then LOWER_COURT
    else HIGH_COURT
  }

  /** A judicial node is never promoted: tier 1 is statute only, tier 2 needs the Supreme Court named. */
  function AuthorityTierFor(t: NodeType, courtLevel: Option<string>): (tier: int)
    ensures 1 <= tier <= 8
    ensures tier == CONSTITUTION_STATUTE <==> FixedTier(t) == Some(CONSTITUTION_STATUTE)
    ensures tier == SUPREME_COURT <==> Judicial(t) && courtLevel in {Some("SC"), Some("SUPREME_COURT")}
  {
    match FixedTier(t)
    case Some(tier) => tier
    case None =>
      if !Judicial(t) then AI_SUMMARY
      else match courtLevel
        case None => HIGH_COURT
        case Some(level) => CourtTier(level)
  }
}
