/** Generating an answer: when it is refused, and what an answer that is not refused cites. */
module GroundedGenerator {
  import opened Wrappers
  import opened Text
  import opened Markers
  import opened Sections
  import opened Enforce
  import opened AnswerFormat
  import opened Forgery
  import opened Evidence
  import opened Generator
  import opened GateAccount

  datatype Reason = RetrievalInsufficient | EnforcementEmpty

  datatype Outcome =
    | Refusal(reason: Reason)
    | Grounded(text: string, public: seq<AnswerCitation>, private: seq<AnswerCitation>, clean: EnforcedAnswer)

  /** What the enforcer reads: the provider's reply, or the fallback's when the provider failed. */
  ghost function Raw(pack: EvidencePack, reply: Option<string>): string {
    if reply.Some? then reply.value else StubText(Join("\n", PackLines(pack)))
  }

  predicate NothingRetrieved(pack: EvidencePack) {
    pack.insufficient || pack.spans == []
  }

  /**
   * The answer shown is the enforced reply, and its citations are exactly the markers it shows that the
   * evidence pack can resolve.
   */
  ghost predicate IsGrounded(out: Outcome, pack: EvidencePack, raw: string, ord: Order) {
    && out.Grounded?
    && out.clean == EnforcedOf(raw, PackMarkers(pack.spans), ord)
    && out.text == Rendered(out.clean)
    && Resolves(out.public, LabelSet(out.text), pack.spans, false)
    && Resolves(out.private, LabelSet(out.text), pack.spans, true)
  }

  /** An answer that is not refused has at least one citation, whatever the model wrote. */
  lemma GroundedIsCited(out: Outcome, pack: EvidencePack, raw: string, ord: Order)
    requires IsGrounded(out, pack, raw, ord) && out.clean.answer != []
    ensures |out.public| + |out.private| >= 1
  {
    hide LabelSet, Rendered, EnforcedOf, CitationOf, SpanFor, Cited;
    AnswerCitesPack(raw, PackMarkers(pack.spans), ord);
    var m :| m in LabelSet(out.clean.answer) * PackMarkers(pack.spans);
    RenderedLabels(out.clean);
    var s :| s in pack.spans && s.marker == m;
    SpanForPack(pack.spans, s);
    if SpanFor(pack.spans, m).value.private {
      assert CitationOf(m, SpanFor(pack.spans, m).value) in out.private;
    } else {
      assert CitationOf(m, SpanFor(pack.spans, m).value) in out.public;
    }
  }

  lemma SpanForPack(spans: seq<EvidenceSpan>, s: EvidenceSpan)
    requires s in spans
    ensures SpanFor(spans, s.marker).Some?
  {
  }

  ghost predicate CitedIn(cs: seq<AnswerCitation>, m: string) {
    exists c :: c in cs && c.marker == m
  }

  /** Every marker shown resolves in the evidence pack, and has its one citation on the side of its span's kind. */
  ghost predicate EachCitedOnce(out: Outcome, spans: seq<EvidenceSpan>) {
    && out.Grounded?
    && Ascending(out.public) && Ascending(out.private)
    && (forall m | m in LabelSet(out.text) :: SpanFor(spans, m).Some?
          && (CitedIn(out.private, m) <==> SpanFor(spans, m).value.private)
          && (CitedIn(out.public, m) <==> !SpanFor(spans, m).value.private))
    && (forall c | c in out.public + out.private :: c.marker in LabelSet(out.text))
  }

  /**
   * Exactly when the user sees pack markers only and each is cited once: when the deletions put no foreign
   * marker together.
   */
  lemma GroundedIsExact(out: Outcome, pack: EvidencePack, raw: string, ord: Order)
    requires IsOrder(ord) && IsGrounded(out, pack, raw, ord)
    ensures LabelSet(out.text) <= PackMarkers(pack.spans) <==> NothingForged(raw, PackMarkers(pack.spans), ord)
    ensures EachCitedOnce(out, pack.spans) <==> NothingForged(raw, PackMarkers(pack.spans), ord)
    ensures Wedged(IDLE, raw) <= PackMarkers(pack.spans) ==> EachCitedOnce(out, pack.spans)
  {
    hide LabelSet, Rendered, EnforcedOf, IsOrder, Wedged, NothingForged, EachCitedOnce, Resolves, PackMarkers;
    GateIsExact(raw, PackMarkers(pack.spans), ord);
    if Wedged(IDLE, raw) <= PackMarkers(pack.spans) { UnwedgedIsHarmless(raw, PackMarkers(pack.spans), ord); }
    if LabelSet(out.text) <= PackMarkers(pack.spans) { ShownAreCitedOnce(out, pack, raw, ord); }
    if EachCitedOnce(out, pack.spans) { CitedAreInPack(out, pack.spans); }
  }

  lemma CitedAreInPack(out: Outcome, spans: seq<EvidenceSpan>)
    requires EachCitedOnce(out, spans)
    ensures LabelSet(out.text) <= PackMarkers(spans)
  {
    hide LabelSet, Ascending, CitedIn, SpanFor;
    forall m | m in LabelSet(out.text) ensures m in PackMarkers(spans) {
      FoundIsInPack(spans, m);
    }
  }

  lemma {:induction false} FoundIsInPack(spans: seq<EvidenceSpan>, m: string)
    requires SpanFor(spans, m).Some?
    ensures m in PackMarkers(spans)
  {
  }

  lemma ShownAreCitedOnce(out: Outcome, pack: EvidencePack, raw: string, ord: Order)
    requires IsGrounded(out, pack, raw, ord) && LabelSet(out.text) <= PackMarkers(pack.spans)
    ensures EachCitedOnce(out, pack.spans)
  {
    hide LabelSet, Rendered, EnforcedOf, CitationOf, SpanFor, Cited;
    forall m | m in LabelSet(out.text) ensures SpanFor(pack.spans, m).Some?
      && (CitedIn(out.private, m) <==> SpanFor(pack.spans, m).value.private)
      && (CitedIn(out.public, m) <==> !SpanFor(pack.spans, m).value.private)
    {
      var s :| s in pack.spans && s.marker == m;
      SpanForPack(pack.spans, s);
      var c := CitationOf(m, SpanFor(pack.spans, m).value);
      CitationKeepsMarker(m, SpanFor(pack.spans, m).value);
      assert c in out.private || c in out.public;
    }
  }

  /** A reply that has a foreign marker shown, for every evidence pack with a properly marked span. */
  lemma ForeignMarkerShown(out: Outcome, pack: EvidencePack, ord: Order, m: string, e: string, a: string)
    requires IsOrder(ord) && IsGrounded(out, pack, Smuggled(m, e, a), ord)
    requires IsLabel(m) && IsLabel(a) && AllDigits(e) && e != []
    requires a in PackMarkers(pack.spans) && m !in PackMarkers(pack.spans)
    ensures "S" + e in LabelSet(out.text)
  {
    hide LabelSet, Rendered, EnforcedOf, Resolves, IsLabel, AllDigits, Smuggled;
    GateCanBePassed(m, e, a, PackMarkers(pack.spans), ord);
  }

  lemma CitationKeepsMarker(m: string, s: EvidenceSpan)
    ensures CitationOf(m, s).marker == m
  {
  }

  /** The fallback cites every properly marked span of the evidence pack. */
  lemma FallbackCitesEverySpan(out: Outcome, pack: EvidencePack, ord: Order)
    requires IsOrder(ord) && IsGrounded(out, pack, Raw(pack, None), ord)
    requires exists s :: s in pack.spans && IsLabel(s.marker)
    ensures !out.clean.insufficient
    ensures forall s | s in pack.spans && IsLabel(s.marker) :: s.marker in LabelSet(out.text)
    ensures EachCitedOnce(out, pack.spans)
  {
    hide LabelSet, Rendered, EnforcedOf, CitationOf, SpanFor, Cited, IsOrder, Wedged, IsLabel, StubText, Join,
      PackLines, Resolves, EachCitedOnce;
    var s :| s in pack.spans && IsLabel(s.marker);
    FallbackNeverRefuses(pack, ord, s);
    FallbackSplicesNothing(pack, s);
    GroundedIsExact(out, pack, Raw(pack, None), ord);
  }

  lemma FallbackSplicesNothing(pack: EvidencePack, s: EvidenceSpan)
    requires s in pack.spans && IsLabel(s.marker)
    ensures Wedged(IDLE, Raw(pack, None)) == {}
  {
    hide Scan, Wedged, IsLabel, Join, PackLines, StubLines;
    var packText := Join("\n", PackLines(pack));
    var ms := Distinct(MarkersOf(packText));
    DistinctAre(MarkersOf(packText));
    PackShowsMarkers(pack, s);
    assert s.marker in ms;
    ScanLabels(IDLE, packText);
    StubSplits(ms);
  }

  /**
   * The whole step. The provider's failure is an empty `reply`. An answer is refused exactly when the
   * evidence is insufficient or the enforcer leaves no answer text: text that is left always cites the evidence pack.
   */
  method Generate(pack: EvidencePack, reply: Option<string>, ord: Order) returns (out: Outcome)
    requires IsOrder(ord)
    ensures out == Refusal(RetrievalInsufficient) <==> pack.insufficient || pack.spans == []
    ensures out == Refusal(EnforcementEmpty) <==>
            !NothingRetrieved(pack) && EnforcedOf(Raw(pack, reply), PackMarkers(pack.spans), ord).answer == []
    ensures IsEnforced(EnforcedOf(Raw(pack, reply), PackMarkers(pack.spans), ord), Raw(pack, reply),
                       PackMarkers(pack.spans))
    ensures out.Grounded? ==>
              CitesAll(out.public, out.text, pack.spans, false) && CitesAll(out.private, out.text, pack.spans, true)
    ensures out.Grounded? ==>
              IsGrounded(out, pack, Raw(pack, reply), ord) && |out.public| + |out.private| >= 1
    ensures out.Grounded? ==>
              (EachCitedOnce(out, pack.spans) <==> NothingForged(Raw(pack, reply), PackMarkers(pack.spans), ord))
    ensures out.Grounded? && Wedged(IDLE, Raw(pack, reply)) <= PackMarkers(pack.spans) ==>
            EachCitedOnce(out, pack.spans)
    ensures reply.None? && !NothingRetrieved(pack) && (exists s :: s in pack.spans && IsLabel(s.marker)) ==>
              && out.Grounded? && !out.clean.insufficient && EachCitedOnce(out, pack.spans)
              && forall s | s in pack.spans && IsLabel(s.marker) :: s.marker in LabelSet(out.text)
  {
    hide LabelSet, Rendered, EnforcedOf, CitationsOf, SortedMarkers, SpanFor, Cited, IsOrder, Wedged, IsLabel,
      StubText, Join, PackLines, Strip, Resolves, EachCitedOnce, PackMarkers, NothingForged, IsEnforced, CitesAll;
    GateTells(Raw(pack, reply), PackMarkers(pack.spans), ord);
    if NothingRetrieved(pack) { return Refusal(RetrievalInsufficient); }
    var packText := FormatPack(pack);
    var raw;
    if reply.Some? { raw := reply.value; } else { raw := StubComplete(packText); }
    assert raw == Raw(pack, reply);
    var clean, report := EnforceGrounding(raw, PackMarkers(pack.spans), ord);
    AnswersAreStripped(raw, PackMarkers(pack.spans), ord);
    if clean.answer != [] { AnswerCitesPack(raw, PackMarkers(pack.spans), ord); }
    if reply.None? && exists s :: s in pack.spans && IsLabel(s.marker) {
      var s :| s in pack.spans && IsLabel(s.marker);
      FallbackNeverRefuses(pack, ord, s);
    }
    if Strip(clean.answer) == [] || clean.used == {} { return Refusal(EnforcementEmpty); }
    var text := FormatAnswer(clean);
    var public, private := ResolveCitations(text, pack.spans, ord);
    CitationsAreExact(text, pack.spans, ord, false);
    CitationsAreExact(text, pack.spans, ord, true);
    ResolvedCitesAll(public, text, pack.spans, false);
    ResolvedCitesAll(private, text, pack.spans, true);
    out := Grounded(text, public, private, clean);
    GroundedIsCited(out, pack, raw, ord);
    GroundedIsExact(out, pack, raw, ord);
    if reply.None? && exists s :: s in pack.spans && IsLabel(s.marker) { FallbackCitesEverySpan(out, pack, ord); }
  }

  lemma AnswersAreStripped(raw: string, allowed: set<string>, ord: Order)
    ensures var a := EnforcedOf(raw, allowed, ord).answer; Strip(a) == a
  {
    hide LabelSet, Cited, SectionText, KeptSentences, KeptBullets, ParseConfidence, ParseInsufficient, Strip;
    var joined := Join(" ", KeptSentences(SectionText(raw, Section.Answer), allowed, ord));
    StripIsStripped(joined);
    StripKeepsStripped(Strip(joined));
  }
}
