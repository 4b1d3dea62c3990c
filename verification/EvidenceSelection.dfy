/** Choosing the evidence: the greedy pass over the ranked candidates, and the binding anchor added after it. */
module EvidenceSelection {
  import opened Wrappers
  import opened Ontology
  import opened Text
  import opened Spelling
  import opened Evidence

  // ---------------------------------------------------------------------------
  // Candidates and the spans made of them
  // ---------------------------------------------------------------------------

  /** What a source span of record holds. */
  datatype SpanRecord = SpanRecord(
    id: Option<string>, episodeRef: Option<string>, episodeId: Option<string>, fileRef: Option<string>,
    fileId: Option<string>, text: string, charStart: Option<int>, charEnd: Option<int>)

  /** A ranked node; a text field that is absent is empty. `own` is the node itself read as a span record. */
  datatype Candidate = Candidate(
    id: string, nodeType: string, tier: Option<nat>, score: real, matter: string,
    title: Option<string>, shortTitle: Option<string>, heading: Option<string>, citation: Option<string>,
    court: Option<string>, decisionDate: Option<string>, date: Option<string>,
    number: string, actRef: string, actName: string, sectionRef: string,
    excerpt: string, sourceSpanId: string, episodeId: string, fileId: string, own: SpanRecord)

  /** The span of record of a node: none if there is none, or if looking it up failed. */
  type Lookup = string -> Option<SpanRecord>

  const EXCERPT_LENGTH: nat := 1200

  function OrElse(a: Option<string>, b: Option<string>): Option<string> {
    if a.Some? && a.value != [] then a else b
  }

  function TextOr(a: string, b: string): string {
    if a != [] then a else b
  }

  function Cut(s: string): string {
    if |s| <= EXCERPT_LENGTH then s else s[..EXCERPT_LENGTH]
  }

  function PlaceOf(c: Candidate): Option<string> {
    if FoldsSomewhere(c.nodeType, 0, "section") && c.number != [] then
      Some(Strip("Section " + c.number + " " + TextOr(c.actRef, c.actName)))
    else if FoldsSomewhere(c.nodeType, 0, "section") && c.sectionRef != [] then Some(c.sectionRef)
    else if FoldsSomewhere(c.nodeType, 0, "paragraph") && c.number != [] then Some("para " + c.number)
    else if c.sectionRef != [] then Some(c.sectionRef)
    else None
  }

  /** Tiers are 1 to 8; a node without one counts as machine-made. */
  function TierFor(c: Candidate): nat {
    if c.tier.Some? then c.tier.value else AI_SUMMARY
  }

  predicate TierValid(c: Candidate) {
    c.tier.Some? ==> 1 <= c.tier.value <= 8
  }

  ghost predicate TiersValid(cands: seq<Candidate>) {
    forall i | 0 <= i < |cands| :: TierValid(cands[i])
  }

  /** The record behind a candidate; a candidate that is itself a source span is its own. */
  function RecordFor(c: Candidate, lookup: Lookup): Option<SpanRecord> {
    if c.nodeType == "SourceSpan" then Some(c.own) else lookup(c.id)
  }

  function ValueOr(a: Option<string>, b: string): string {
    if a.Some? then a.value else b
  }

  function FromRecord(c: Candidate, sp: SpanRecord, marker: string): EvidenceSpan {
    var excerpt := Cut(sp.text);
    EvidenceSpan(
      marker, c.id, TextOr(c.nodeType, "Unknown"), ValueOr(sp.id, c.sourceSpanId),
      ValueOr(OrElse(sp.episodeRef, sp.episodeId), ""), ValueOr(OrElse(sp.fileRef, sp.fileId), ""),
      OrElse(OrElse(c.title, c.shortTitle), c.heading), c.citation, PlaceOf(c), c.court, OrElse(c.decisionDate, c.date),
      excerpt, if sp.charStart.Some? then sp.charStart.value else 0,
      if sp.charEnd.Some? then sp.charEnd.value else |excerpt|, TierFor(c), c.score, c.matter != [])
  }

  function FromNode(c: Candidate, excerpt: string, marker: string): EvidenceSpan {
    EvidenceSpan(
      marker, c.id, TextOr(c.nodeType, "Unknown"), c.sourceSpanId, c.episodeId, c.fileId,
      OrElse(c.title, c.heading), c.citation, PlaceOf(c), c.court, c.date,
      Cut(excerpt), 0, |excerpt|, TierFor(c), c.score, c.matter != [])
  }

  /**
   * The evidence span of a candidate, or nothing: infrastructure nodes and candidates without any text are no
   * evidence.
   */
  function Materialise(c: Candidate, lookup: Lookup, marker: string): Option<EvidenceSpan> {
    if c.id == [] || c.nodeType in {"File", "SourceEpisode"} then None
    else
      var sp := RecordFor(c, lookup);
      var excerpt := TextOr(c.excerpt, c.own.text);
      if sp.Some? then Some(FromRecord(c, sp.value, marker))
      else if Strip(excerpt) == [] then None
      else Some(FromNode(c, excerpt, marker))
  }

  predicate Materialises(c: Candidate, lookup: Lookup) {
    Materialise(c, lookup, "").Some?
  }

  /**
   * Whether a candidate is evidence does not depend on its marker, nor does anything about the span but the
   * marker itself.
   */
  lemma MarkerIsFree(c: Candidate, lookup: Lookup, m: string, n: string)
    ensures Materialise(c, lookup, m).Some? <==> Materialise(c, lookup, n).Some?
    ensures Materialise(c, lookup, m).Some? ==>
              Materialise(c, lookup, m).value == Materialise(c, lookup, n).value.(marker := m)
  {
    hide FoldsSomewhere, Strip, PlaceOf;
  }

  lemma MaterialisedTier(c: Candidate, lookup: Lookup, m: string)
    requires Materialise(c, lookup, m).Some?
    ensures Materialise(c, lookup, m).value.tier == TierFor(c)
  {
    hide FoldsSomewhere, Strip, PlaceOf, TierFor;
  }

  // --- what a span says, field by field -----------------------------------------

  /** `v` is the first of the values that is given and not empty, and the last of them if none is. */
  ghost predicate FirstGiven(v: Option<string>, given: seq<Option<string>>) {
    || (exists k :: 0 <= k < |given| && given[k].Some? && given[k].value != "" && v == given[k]
          && forall j | 0 <= j < k :: given[j].None? || given[j].value == "")
    || (given != [] && v == given[|given| - 1] && forall j | 0 <= j < |given| :: given[j].None? || given[j].value == "")
  }

  /** The first 1200 characters of the text. */
  ghost predicate Opening(excerpt: string, text: string) {
    && excerpt <= text && |excerpt| <= 1200 && (|text| <= 1200 ==> |excerpt| == |text|)
    && (|text| > 1200 ==> |excerpt| == 1200)
  }

  /** Where in the document: a section by number and act, a paragraph by number, else the reference given. */
  ghost predicate IsPlace(place: Option<string>, c: Candidate) {
    && (Mentions(c.nodeType, "section") && c.number != "" ==>
          place == Some(Strip("Section " + c.number + " " + (if c.actRef != "" then c.actRef else c.actName))))
    && (Mentions(c.nodeType, "section") && c.number == "" && c.sectionRef != "" ==> place == Some(c.sectionRef))
    && (!Mentions(c.nodeType, "section") && Mentions(c.nodeType, "paragraph") && c.number != "" ==>
          place == Some("para " + c.number))
    && (!Mentions(c.nodeType, "section") && (!Mentions(c.nodeType, "paragraph") || c.number == "") ==>
          place == if c.sectionRef != "" then Some(c.sectionRef) else None)
    && (Mentions(c.nodeType, "section") && c.number == "" && c.sectionRef == "" ==> place == None)
  }

  /** What every span has of its node; the private ones are exactly those of nodes that belong to a matter. */
  ghost predicate OfNode(s: EvidenceSpan, c: Candidate) {
    && (s.private <==> c.matter != "")
    && s.nodeId == c.id != "" && s.nodeType == (if c.nodeType != "" then c.nodeType else "Unknown")
    && (c.tier.Some? ==> s.tier == c.tier.value) && (c.tier.None? ==> s.tier == 8)
    && s.score == c.score && s.citation == c.citation && s.court == c.court && IsPlace(s.place, c)
  }

  /** What a span has of the source span of record. */
  ghost predicate OfRecord(s: EvidenceSpan, c: Candidate, r: SpanRecord) {
    && Opening(s.excerpt, r.text)
    && (r.id.Some? ==> s.sourceSpanId == r.id.value) && (r.id.None? ==> s.sourceSpanId == c.sourceSpanId)
    && FirstGiven(Some(s.sourceEpisodeId), [r.episodeRef, r.episodeId, Some("")])
    && FirstGiven(Some(s.fileId), [r.fileRef, r.fileId, Some("")])
    && (r.charStart.Some? ==> s.charStart == r.charStart.value) && (r.charStart.None? ==> s.charStart == 0)
    && (r.charEnd.Some? ==> s.charEnd == r.charEnd.value) && (r.charEnd.None? ==> s.charEnd == |s.excerpt|)
    && FirstGiven(s.title, [c.title, c.shortTitle, c.heading]) && FirstGiven(s.date, [c.decisionDate, c.date])
  }

  /** What a span has without a record: all of it from the node. */
  ghost predicate OfNodeAlone(s: EvidenceSpan, c: Candidate) {
    && (c.excerpt != "" ==> Opening(s.excerpt, c.excerpt) && s.charEnd == |c.excerpt|)
    && (c.excerpt == "" ==> Opening(s.excerpt, c.own.text) && s.charEnd == |c.own.text|)
    && s.charStart == 0 && s.sourceSpanId == c.sourceSpanId && s.sourceEpisodeId == c.episodeId && s.fileId == c.fileId
    && FirstGiven(s.title, [c.title, c.heading]) && s.date == c.date
  }

  /** The span tells what its candidate and the record behind it say. */
  ghost predicate Tells(s: EvidenceSpan, c: Candidate, lookup: Lookup) {
    && OfNode(s, c)
    && (c.nodeType == "SourceSpan" ==> OfRecord(s, c, c.own))
    && (c.nodeType != "SourceSpan" && lookup(c.id).Some? ==> OfRecord(s, c, lookup(c.id).value))
    && (c.nodeType != "SourceSpan" && lookup(c.id).None? ==> OfNodeAlone(s, c))
  }

  lemma CutOpens(s: string)
    ensures Opening(Cut(s), s)
  {
  }

  lemma OrElseGives(a: Option<string>, b: Option<string>)
    ensures FirstGiven(OrElse(a, b), [a, b])
  {
    var given := [a, b];
    if a.Some? && a.value != "" {
      assert given[0] == a;
    } else if b.Some? && b.value != "" {
      assert given[1] == b;
    }
  }

  lemma OrElseGivesOf3(a: Option<string>, b: Option<string>, c: Option<string>)
    ensures FirstGiven(OrElse(OrElse(a, b), c), [a, b, c])
  {
    var given := [a, b, c];
    if a.Some? && a.value != "" {
      assert given[0] == a;
    } else if b.Some? && b.value != "" {
      assert given[1] == b;
    } else if c.Some? && c.value != "" {
      assert given[2] == c;
    }
  }

  lemma ValueGives(a: Option<string>, b: Option<string>)
    ensures FirstGiven(Some(ValueOr(OrElse(a, b), "")), [a, b, Some("")])
  {
    var given := [a, b, Some("")];
    if a.Some? && a.value != "" {
      assert given[0] == a;
    } else if b.Some? && b.value != "" {
      assert given[1] == b;
    }
  }

  lemma PlaceIsPlace(c: Candidate)
    ensures IsPlace(PlaceOf(c), c)
  {
    MentionIsFound(c.nodeType, "section");
    MentionIsFound(c.nodeType, "paragraph");
    hide Mentions, FoldsSomewhere, Strip;
  }

  lemma RecordTells(c: Candidate, r: SpanRecord, m: string)
    requires c.id != []
    ensures OfNode(FromRecord(c, r, m), c) && OfRecord(FromRecord(c, r, m), c, r)
  {
    CutOpens(r.text);
    ValueGives(r.episodeRef, r.episodeId);
    ValueGives(r.fileRef, r.fileId);
    OrElseGivesOf3(c.title, c.shortTitle, c.heading);
    OrElseGives(c.decisionDate, c.date);
    PlaceIsPlace(c);
    hide Opening, FirstGiven, IsPlace, PlaceOf, Cut, OrElse;
  }

  lemma NodeTells(c: Candidate, m: string)
    requires c.id != []
    ensures OfNode(FromNode(c, TextOr(c.excerpt, c.own.text), m), c)
    ensures OfNodeAlone(FromNode(c, TextOr(c.excerpt, c.own.text), m), c)
  {
    CutOpens(TextOr(c.excerpt, c.own.text));
    OrElseGives(c.title, c.heading);
    PlaceIsPlace(c);
    hide Opening, FirstGiven, IsPlace, PlaceOf, Cut, OrElse;
  }

  /**
   * Which candidates become evidence, and what their spans say, field by field. A candidate without an id, a file
   * or an episode is none, and neither is one with no record and no text of its own.
   */
  lemma EvidenceTells(c: Candidate, lookup: Lookup, m: string)
    ensures Materialise(c, lookup, m).None? <==>
            || c.id == "" || c.nodeType == "File" || c.nodeType == "SourceEpisode"
            || (c.nodeType != "SourceSpan" && lookup(c.id).None?
                && forall ch | ch in (if c.excerpt != "" then c.excerpt else c.own.text) :: IsSpace(ch))
    ensures Materialise(c, lookup, m).Some? ==>
              Materialise(c, lookup, m).value.marker == m && Tells(Materialise(c, lookup, m).value, c, lookup)
  {
    hide FromRecord, FromNode, IsSpace, Strip, OfNode, OfRecord, OfNodeAlone;
    BlankStrips(TextOr(c.excerpt, c.own.text));
    if c.id != [] {
      NodeTells(c, m);
      if RecordFor(c, lookup).Some? { RecordTells(c, RecordFor(c, lookup).value, m); }
    }
    MarkerKept(c, lookup, m);
  }

  lemma MarkerKept(c: Candidate, lookup: Lookup, m: string)
    ensures Materialise(c, lookup, m).Some? ==> Materialise(c, lookup, m).value.marker == m
  {
    hide FoldsSomewhere, Strip, PlaceOf, Cut, OrElse, TextOr;
  }

  lemma BlankStrips(s: string)
    ensures Strip(s) == [] <==> forall ch | ch in s :: IsSpace(ch)
  {
    hide IsSpace;
    var a, b := StripCuts(s);
    if Strip(s) == [] {
      forall ch | ch in s ensures IsSpace(ch) {
        var i :| 0 <= i < |s| && s[i] == ch;
        assert s == a + b;
        if i < |a| { assert a[i] == ch; } else { assert b[i - |a|] == ch; }
      }
    } else {
      assert s[|a|] == Strip(s)[0];
      assert s[|a|] in s;
    }
  }

  /** The candidate's excerpt, whatever its marker. */
  function ExcerptOf(c: Candidate, lookup: Lookup): string
    requires Materialises(c, lookup)
  {
    Materialise(c, lookup, "").value.excerpt
  }

  function MarkerFor(k: nat): string {
    "S" + Decimal(k)
  }

  // ---------------------------------------------------------------------------
  // The greedy pass
  // ---------------------------------------------------------------------------

  datatype Limits = Limits(tokenBudget: nat, maxSpans: nat, tierCap: nat, forceAnchor: bool) {
    function Cap(): (cap: nat)
      ensures cap >= 1 && cap >= tierCap && (tierCap <= 1 ==> cap == 1) && (tierCap > 1 ==> cap == tierCap)
    {
      if tierCap < 1 then 1 else tierCap
    }
  }

  type Cost = string -> nat

  /** The tokens a list of spans takes. */
  function TotalCost(spans: seq<EvidenceSpan>, cost: Cost): nat {
    if spans == [] then 0
    else TotalCost(spans[..|spans| - 1], cost) + cost(spans[|spans| - 1].excerpt)
  }

  lemma TotalCostSnoc(spans: seq<EvidenceSpan>, s: EvidenceSpan, cost: Cost)
    ensures TotalCost(spans + [s], cost) == TotalCost(spans, cost) + cost(s.excerpt)
  {
    assert (spans + [s])[..|spans|] == spans;
  }

  ghost predicate Increasing(ks: seq<nat>) {
    forall a, b | 0 <= a < b < |ks| :: ks[a] < ks[b]
  }

  /** The picks made before candidate `i`. */
  ghost function Below(ks: seq<nat>, i: nat): seq<nat> {
    if ks == [] || ks[|ks| - 1] < i then ks else Below(ks[..|ks| - 1], i)
  }

  /** How many of the picked candidates are of a tier. */
  ghost function TierCount(cands: seq<Candidate>, ks: seq<nat>, tier: nat): nat
    requires forall k | 0 <= k < |ks| :: ks[k] < |cands|
  {
    if ks == [] then 0
    else TierCount(cands, ks[..|ks| - 1], tier) + (if TierFor(cands[ks[|ks| - 1]]) == tier then 1 else 0)
  }

  ghost predicate InRange(cands: seq<Candidate>, ks: seq<nat>) {
    Increasing(ks) && forall k | 0 <= k < |ks| :: ks[k] < |cands|
  }

  /** The spans are made of the picked candidates, numbered from S1 on. */
  ghost predicate MadeOf(cands: seq<Candidate>, lookup: Lookup, ks: seq<nat>, spans: seq<EvidenceSpan>) {
    && InRange(cands, ks) && |spans| == |ks|
    && forall k | 0 <= k < |ks| :: Materialise(cands[ks[k]], lookup, MarkerFor(k + 1)) == Some(spans[k])
  }

  lemma {:induction false} BelowIsPrefix(ks: seq<nat>, i: nat)
    ensures Below(ks, i) <= ks
  {
    if !(ks == [] || ks[|ks| - 1] < i) {
      BelowIsPrefix(ks[..|ks| - 1], i);
    }
  }

  /** A candidate may still be taken: it is evidence, and its tier is not full. */
  ghost predicate Eligible(cands: seq<Candidate>, lookup: Lookup, cap: nat, ks: seq<nat>, i: nat)
    requires i < |cands| && InRange(cands, ks)
  {
    Materialises(cands[i], lookup) && TierCount(cands, ks, TierFor(cands[i])) < cap
  }

  lemma BelowInRange(cands: seq<Candidate>, ks: seq<nat>, i: nat)
    requires InRange(cands, ks)
    ensures InRange(cands, Below(ks, i))
  {
    BelowIsPrefix(ks, i);
  }

  ghost predicate Decided(cands: seq<Candidate>, lookup: Lookup, cap: nat, ks: seq<nat>, i: nat)
    requires i < |cands| && InRange(cands, ks)
  {
    BelowInRange(cands, ks, i);
    i in ks <==> Eligible(cands, lookup, cap, Below(ks, i), i)
  }

  /** Up to `stop`, a candidate was taken exactly if it was eligible when its turn came. */
  ghost predicate Greedy(cands: seq<Candidate>, lookup: Lookup, cap: nat, ks: seq<nat>, stop: nat) {
    && InRange(cands, ks) && stop <= |cands|
    && (forall k | 0 <= k < |ks| :: ks[k] < stop)
    && forall i | 0 <= i < stop :: Decided(cands, lookup, cap, ks, i)
  }

  ghost predicate WithinLimits(cands: seq<Candidate>, limits: Limits, cost: Cost, ks: seq<nat>,
                               spans: seq<EvidenceSpan>) {
    && |spans| <= limits.maxSpans
    && (TotalCost(spans, cost) <= limits.tokenBudget || |spans| == 1)
    && InRange(cands, ks) && forall t: nat :: TierCount(cands, ks, t) <= limits.Cap()
  }

  /** Why the pass stopped: no more candidates, no more room, or the next eligible candidate is over budget. */
  ghost predicate StopsAt(cands: seq<Candidate>, lookup: Lookup, limits: Limits, cost: Cost, ks: seq<nat>,
                          spans: seq<EvidenceSpan>, stop: nat)
    requires InRange(cands, ks)
  {
    || stop == |cands|
    || (stop < |cands| && |spans| == limits.maxSpans)
    || (stop < |cands| && spans != [] && Eligible(cands, lookup, limits.Cap(), ks, stop)
        && TotalCost(spans, cost) + cost(ExcerptOf(cands[stop], lookup)) > limits.tokenBudget)
  }

  /** `spans` is what the greedy pass selects. */
  ghost predicate Selected(cands: seq<Candidate>, lookup: Lookup, limits: Limits, cost: Cost, ks: seq<nat>,
                           spans: seq<EvidenceSpan>, stop: nat) {
    && MadeOf(cands, lookup, ks, spans)
    && Greedy(cands, lookup, limits.Cap(), ks, stop)
    && WithinLimits(cands, limits, cost, ks, spans)
    && StopsAt(cands, lookup, limits, cost, ks, spans, stop)
  }

  // --- one step -------------------------------------------------------------

  lemma BelowSnoc(ks: seq<nat>, j: nat, i: nat)
    ensures i <= j ==> Below(ks + [j], i) == Below(ks, i)
    ensures i > j ==> Below(ks + [j], i) == ks + [j]
  {
    assert (ks + [j])[..|ks|] == ks;
  }

  lemma TierCountSnoc(cands: seq<Candidate>, ks: seq<nat>, j: nat, t: nat)
    requires (forall k | 0 <= k < |ks| :: ks[k] < |cands|) && j < |cands|
    ensures TierCount(cands, ks + [j], t) == TierCount(cands, ks, t) + (if TierFor(cands[j]) == t then 1 else 0)
  {
    assert (ks + [j])[..|ks|] == ks;
  }

  lemma AllBelow(ks: seq<nat>, i: nat)
    requires forall k | 0 <= k < |ks| :: ks[k] < i
    ensures Below(ks, i) == ks && i !in ks
  {
  }

  lemma GreedySkip(cands: seq<Candidate>, lookup: Lookup, cap: nat, ks: seq<nat>, i: nat)
    requires Greedy(cands, lookup, cap, ks, i) && i < |cands| && !Eligible(cands, lookup, cap, ks, i)
    ensures Greedy(cands, lookup, cap, ks, i + 1)
  {
    hide Below, Eligible;
    AllBelow(ks, i);
  }

  lemma GreedyTake(cands: seq<Candidate>, lookup: Lookup, cap: nat, ks: seq<nat>, i: nat)
    requires Greedy(cands, lookup, cap, ks, i) && i < |cands| && Eligible(cands, lookup, cap, ks, i)
    ensures Greedy(cands, lookup, cap, ks + [i], i + 1)
  {
    hide Below, Eligible;
    AllBelow(ks, i);
    forall j | 0 <= j < i + 1 ensures InRange(cands, ks + [i]) && Decided(cands, lookup, cap, ks + [i], j) {
      BelowSnoc(ks, i, j);
      if j < i { assert Decided(cands, lookup, cap, ks, j); }
    }
  }

  lemma TakeStaysWithin(cands: seq<Candidate>, lookup: Lookup, limits: Limits, cost: Cost, ks: seq<nat>,
                        spans: seq<EvidenceSpan>, i: nat, s: EvidenceSpan)
    requires WithinLimits(cands, limits, cost, ks, spans) && |spans| < limits.maxSpans && i < |cands|
    requires forall k | 0 <= k < |ks| :: ks[k] < i
    requires TierCount(cands, ks, TierFor(cands[i])) < limits.Cap()
    requires TotalCost(spans, cost) + cost(s.excerpt) <= limits.tokenBudget || spans == []
    ensures WithinLimits(cands, limits, cost, ks + [i], spans + [s])
  {
    hide TierCount, TierFor, TotalCost;
    TotalCostSnoc(spans, s, cost);
    forall t: nat ensures InRange(cands, ks + [i]) && TierCount(cands, ks + [i], t) <= limits.Cap() {
      TierCountSnoc(cands, ks, i, t);
    }
  }

  lemma TakeMakes(cands: seq<Candidate>, lookup: Lookup, ks: seq<nat>, spans: seq<EvidenceSpan>, i: nat,
                  s: EvidenceSpan)
    requires MadeOf(cands, lookup, ks, spans) && i < |cands| && forall k | 0 <= k < |ks| :: ks[k] < i
    requires Materialise(cands[i], lookup, MarkerFor(|spans| + 1)) == Some(s)
    ensures MadeOf(cands, lookup, ks + [i], spans + [s])
  {
    hide Materialise, MarkerFor;
  }

  function CountOf(counts: map<nat, nat>, t: nat): nat {
    if t in counts then counts[t] else 0
  }

  ghost predicate Tallied(cands: seq<Candidate>, ks: seq<nat>, counts: map<nat, nat>) {
    InRange(cands, ks) && forall t: nat :: CountOf(counts, t) == TierCount(cands, ks, t)
  }

  lemma TakeTallies(cands: seq<Candidate>, ks: seq<nat>, counts: map<nat, nat>, i: nat)
    requires Tallied(cands, ks, counts) && i < |cands| && forall k | 0 <= k < |ks| :: ks[k] < i
    ensures var t := TierFor(cands[i]); Tallied(cands, ks + [i], counts[t := CountOf(counts, t) + 1])
  {
    hide TierCount, TierFor;
    var tier := TierFor(cands[i]);
    var after := counts[tier := CountOf(counts, tier) + 1];
    forall t: nat ensures InRange(cands, ks + [i]) && CountOf(after, t) == TierCount(cands, ks + [i], t) {
      TierCountSnoc(cands, ks, i, t);
      assert CountOf(counts, t) == TierCount(cands, ks, t);
    }
  }

  /**
   * The first pass: the best candidates in order, no tier over its cap, within the budget but for a lone first
   * span.
   */
  method SelectSpans(cands: seq<Candidate>, lookup: Lookup, limits: Limits, cost: Cost)
    returns (spans: seq<EvidenceSpan>, spent: nat, ghost ks: seq<nat>, ghost stop: nat)
    requires TiersValid(cands)
    ensures Selected(cands, lookup, limits, cost, ks, spans, stop)
    ensures spent == TotalCost(spans, cost)
  {
    hide Materialise, MarkerFor, TierFor, TierCount, TotalCost, Greedy, Eligible, MadeOf, WithinLimits, TierValid;
    spans, spent, ks := [], 0, [];
    var counts: map<nat, nat> := map[];
    NothingSelected(cands, lookup, limits, cost);
    for i := 0 to |cands|
      invariant MadeOf(cands, lookup, ks, spans) && Greedy(cands, lookup, limits.Cap(), ks, i)
      invariant WithinLimits(cands, limits, cost, ks, spans)
      invariant Tallied(cands, ks, counts) && spent == TotalCost(spans, cost)
    {
      PicksAreBelow(cands, lookup, limits.Cap(), ks, i);
      PicksMatch(cands, lookup, limits, cost, ks, spans);
      if |spans| >= limits.maxSpans { stop := i; return; }
      var tier := TierFor(cands[i]);
      EligibleMeans(cands, lookup, limits.Cap(), ks, i, MarkerFor(|spans| + 1));
      if CountOf(counts, tier) >= limits.Cap() {
        GreedySkip(cands, lookup, limits.Cap(), ks, i);
        continue;
      }
      var span := Materialise(cands[i], lookup, MarkerFor(|spans| + 1));
      if span.None? {
        GreedySkip(cands, lookup, limits.Cap(), ks, i);
        continue;
      }
      var c := cost(span.value.excerpt);
      if spent + c > limits.tokenBudget && spans != [] { stop := i; return; }
      TotalCostSnoc(spans, span.value, cost);
      TakeStaysWithin(cands, lookup, limits, cost, ks, spans, i, span.value);
      TakeMakes(cands, lookup, ks, spans, i, span.value);
      TakeTallies(cands, ks, counts, i);
      GreedyTake(cands, lookup, limits.Cap(), ks, i);
      spent := spent + c;
      counts := counts[tier := CountOf(counts, tier) + 1];
      spans := spans + [span.value];
      ks := ks + [i];
    }
    stop := |cands|;
  }

  lemma NothingSelected(cands: seq<Candidate>, lookup: Lookup, limits: Limits, cost: Cost)
    ensures MadeOf(cands, lookup, [], []) && Greedy(cands, lookup, limits.Cap(), [], 0)
    ensures WithinLimits(cands, limits, cost, [], []) && Tallied(cands, [], map[]) && TotalCost([], cost) == 0
  {
  }

  lemma PicksAreBelow(cands: seq<Candidate>, lookup: Lookup, cap: nat, ks: seq<nat>, i: nat)
    requires Greedy(cands, lookup, cap, ks, i)
    ensures InRange(cands, ks) && forall k | 0 <= k < |ks| :: ks[k] < i
  {
    hide Decided;
  }

  lemma PicksMatch(cands: seq<Candidate>, lookup: Lookup, limits: Limits, cost: Cost, ks: seq<nat>,
                   spans: seq<EvidenceSpan>)
    requires MadeOf(cands, lookup, ks, spans) && WithinLimits(cands, limits, cost, ks, spans)
    ensures |ks| == |spans| <= limits.maxSpans
  {
    hide Materialise, TierCount;
  }

  lemma EligibleMeans(cands: seq<Candidate>, lookup: Lookup, cap: nat, ks: seq<nat>, i: nat, m: string)
    requires i < |cands| && InRange(cands, ks)
    ensures Eligible(cands, lookup, cap, ks, i) <==>
            Materialise(cands[i], lookup, m).Some? && TierCount(cands, ks, TierFor(cands[i])) < cap
    ensures Materialise(cands[i], lookup, m).Some? ==>
              Materialises(cands[i], lookup) && Materialise(cands[i], lookup, m).value.excerpt ==
                ExcerptOf(cands[i], lookup)
  {
    hide Materialise, TierCount, TierFor;
    MarkerIsFree(cands[i], lookup, m, "");
  }

  // --- the pass is determined -------------------------------------------------

  lemma {:induction false} BelowStep(ks: seq<nat>, i: nat)
    requires Increasing(ks)
    ensures Below(ks, i + 1) == Below(ks, i) + (if i in ks then [i] else [])
  {
    if ks != [] {
      var n := |ks| - 1;
      assert ks == ks[..n] + [ks[n]];
      if ks[n] > i {
        BelowStep(ks[..n], i);
      } else if ks[n] == i {
        AllBelow(ks[..n], i);
      }
    }
  }

  lemma {:induction false} ChoicesAgree(cands: seq<Candidate>, lookup: Lookup, cap: nat, ks: seq<nat>, stop: nat,
                                        ks': seq<nat>, stop': nat, i: nat)
    requires Greedy(cands, lookup, cap, ks, stop) && Greedy(cands, lookup, cap, ks', stop') && i <= stop && i <= stop'
    ensures Below(ks, i) == Below(ks', i)
  {
    hide Eligible;
    if i == 0 {
      NothingBelowZero(ks);
      NothingBelowZero(ks');
    } else {
      ChoicesAgree(cands, lookup, cap, ks, stop, ks', stop', i - 1);
      assert Decided(cands, lookup, cap, ks, i - 1) && Decided(cands, lookup, cap, ks', i - 1);
      BelowStep(ks, i - 1);
      BelowStep(ks', i - 1);
    }
  }

  lemma {:induction false} NothingBelowZero(ks: seq<nat>)
    ensures Below(ks, 0) == []
  {
    if ks != [] { NothingBelowZero(ks[..|ks| - 1]); }
  }

  lemma {:induction false} CostGrows(spans: seq<EvidenceSpan>, k: nat, cost: Cost)
    requires k <= |spans|
    ensures TotalCost(spans[..k], cost) <= TotalCost(spans, cost)
  {
    if k == |spans| {
      assert spans[..k] == spans;
    } else {
      CostGrows(spans[..|spans| - 1], k, cost);
      assert spans[..|spans| - 1][..k] == spans[..k];
    }
  }

  lemma PrefixSpans(cands: seq<Candidate>, lookup: Lookup, ks: seq<nat>, spans: seq<EvidenceSpan>,
                    ks': seq<nat>, spans': seq<EvidenceSpan>)
    requires MadeOf(cands, lookup, ks, spans) && MadeOf(cands, lookup, ks', spans') && ks <= ks'
    ensures spans == spans'[..|spans|]
  {
    hide Materialise, MarkerFor;
  }

  lemma EarlierStopDecides(cands: seq<Candidate>, lookup: Lookup, limits: Limits, cost: Cost,
                           ks: seq<nat>, spans: seq<EvidenceSpan>, stop: nat,
                           ks': seq<nat>, spans': seq<EvidenceSpan>, stop': nat)
    requires Selected(cands, lookup, limits, cost, ks, spans, stop)
    requires Selected(cands, lookup, limits, cost, ks', spans', stop')
    requires stop <= stop'
    ensures ks == ks'
  {
    hide Materialise, MarkerFor, TierCount, Below, TotalCost, Eligible, Decided;
    var cap := limits.Cap();
    ChoicesAgree(cands, lookup, cap, ks, stop, ks', stop', stop);
    AllBelow(ks, stop);
    BelowIsPrefix(ks', stop);
    if stop == stop' {
      AllBelow(ks', stop);
    } else if |spans| != limits.maxSpans {
      GoingOnTakes(cands, lookup, cap, ks, stop, ks', stop');
      EligibleMeans(cands, lookup, cap, ks, stop, "");
      OverBudget(cands, lookup, limits, cost, ks, spans, stop, ks', spans');
    }
  }

  lemma GoingOnTakes(cands: seq<Candidate>, lookup: Lookup, cap: nat, ks: seq<nat>, stop: nat, ks': seq<nat>,
                     stop': nat)
    requires Greedy(cands, lookup, cap, ks', stop') && stop < stop' && Below(ks', stop) == ks
    requires InRange(cands, ks) && Eligible(cands, lookup, cap, ks, stop)
    ensures ks + [stop] <= ks'
  {
    hide Eligible, Below;
    assert Decided(cands, lookup, cap, ks', stop);
    BelowStep(ks', stop);
    BelowIsPrefix(ks', stop + 1);
  }

  /** Going on past an eligible candidate that does not fit takes it, and so overruns the budget. */
  lemma OverBudget(cands: seq<Candidate>, lookup: Lookup, limits: Limits, cost: Cost,
                   ks: seq<nat>, spans: seq<EvidenceSpan>, stop: nat, ks': seq<nat>, spans': seq<EvidenceSpan>)
    requires MadeOf(cands, lookup, ks', spans') && MadeOf(cands, lookup, ks, spans) && ks + [stop] <= ks'
    requires spans != [] && stop < |cands| && Materialises(cands[stop], lookup)
    requires TotalCost(spans, cost) + cost(ExcerptOf(cands[stop], lookup)) > limits.tokenBudget
    ensures TotalCost(spans', cost) > limits.tokenBudget && |spans'| > 1
  {
    hide Materialise, MarkerFor, TotalCost;
    var n := |ks|;
    assert ks'[n] == stop;
    PrefixSpans(cands, lookup, ks, spans, ks', spans');
    MarkerIsFree(cands[stop], lookup, MarkerFor(n + 1), "");
    TotalCostSnoc(spans, spans'[n], cost);
    CostGrows(spans', n + 1, cost);
    assert spans'[..n + 1] == spans + [spans'[n]];
  }

  /** The description of the pass leaves no choice: two selections that meet it are the same. */
  lemma SelectionIsDetermined(cands: seq<Candidate>, lookup: Lookup, limits: Limits, cost: Cost,
                              ks: seq<nat>, spans: seq<EvidenceSpan>, stop: nat,
                              ks': seq<nat>, spans': seq<EvidenceSpan>, stop': nat)
    requires Selected(cands, lookup, limits, cost, ks, spans, stop)
    requires Selected(cands, lookup, limits, cost, ks', spans', stop')
    ensures ks == ks' && spans == spans'
  {
    hide Materialise, MarkerFor, Greedy, WithinLimits, StopsAt;
    if stop <= stop' {
      EarlierStopDecides(cands, lookup, limits, cost, ks, spans, stop, ks', spans', stop');
    } else {
      EarlierStopDecides(cands, lookup, limits, cost, ks', spans', stop', ks, spans, stop);
    }
    PrefixSpans(cands, lookup, ks, spans, ks', spans');
  }

  // ---------------------------------------------------------------------------
  // The anchor
  // ---------------------------------------------------------------------------

  predicate IsAnchor(c: Candidate, lookup: Lookup) {
    c.tier == Some(CONSTITUTION_STATUTE) && Materialises(c, lookup)
  }

  ghost predicate HasAnchor(cands: seq<Candidate>, lookup: Lookup) {
    exists i | 0 <= i < |cands| :: IsAnchor(cands[i], lookup)
  }

  /** Less binding, or equally binding and scored lower. */
  predicate Weaker(a: EvidenceSpan, b: EvidenceSpan) {
    a.tier > b.tier || (a.tier == b.tier && a.score < b.score)
  }

  function Evicted(spans: seq<EvidenceSpan>, w: nat): seq<EvidenceSpan>
    requires w < |spans|
  {
    spans[..w] + spans[w + 1..]
  }

  /** The first of the spans of the last tier that score lowest of these. */
  ghost predicate IsWeakest(spans: seq<EvidenceSpan>, w: nat) {
    && w < |spans|
    && (forall i | 0 <= i < |spans| :: spans[i].tier <= spans[w].tier)
    && (forall i | 0 <= i < |spans| && spans[i].tier == spans[w].tier :: spans[i].score >= spans[w].score)
    && forall i | 0 <= i < w && spans[i].tier == spans[w].tier :: spans[i].score > spans[w].score
  }

  method WeakestSpan(spans: seq<EvidenceSpan>) returns (w: nat)
    requires spans != []
    ensures IsWeakest(spans, w)
  {
    w := 0;
    for i := 1 to |spans|
      invariant w < i && (forall k | 0 <= k < i :: !Weaker(spans[k], spans[w]))
      invariant forall k | 0 <= k < w :: Weaker(spans[w], spans[k])
    {
      if Weaker(spans[i], spans[w]) { w := i; }
    }
  }

  lemma {:induction false} CostConcat(a: seq<EvidenceSpan>, b: seq<EvidenceSpan>, cost: Cost)
    ensures TotalCost(a + b, cost) == TotalCost(a, cost) + TotalCost(b, cost)
  {
    if b == [] {
      assert a + b == a;
    } else {
      var n := |b| - 1;
      CostConcat(a, b[..n], cost);
      assert (a + b)[..|a + b| - 1] == a + b[..n];
    }
  }

  /** `kept` is `spans`, or `spans` without its weakest when the anchor would not fit the budget beside them all. */
  ghost predicate MadeRoom(spans: seq<EvidenceSpan>, kept: seq<EvidenceSpan>, anchor: EvidenceSpan, limits: Limits,
                           cost: Cost) {
    if TotalCost(spans, cost) + cost(anchor.excerpt) > limits.tokenBudget && spans != [] then
      exists w :: IsWeakest(spans, w) && kept == Evicted(spans, w)
    else kept == spans
  }

  /** The first candidate that can be the anchor is now the last span; only one span had to go, if any. */
  ghost predicate Anchored(cands: seq<Candidate>, lookup: Lookup, limits: Limits, cost: Cost,
                           spans: seq<EvidenceSpan>, out: seq<EvidenceSpan>) {
    && out != []
    && MadeRoom(spans, out[..|out| - 1], out[|out| - 1], limits, cost)
    && exists i | 0 <= i < |cands| ::
         && IsAnchor(cands[i], lookup) && (forall j | 0 <= j < i :: !IsAnchor(cands[j], lookup))
         && Materialise(cands[i], lookup, MarkerFor(|spans| + 1)) == Some(out[|out| - 1])
  }

  method AddAnchor(cands: seq<Candidate>, lookup: Lookup, limits: Limits, cost: Cost, spans: seq<EvidenceSpan>,
                   spent: nat)
    returns (out: seq<EvidenceSpan>, total: nat)
    requires spent == TotalCost(spans, cost)
    ensures total == TotalCost(out, cost)
    ensures if HasAnchor(cands, lookup) then Anchored(cands, lookup, limits, cost, spans, out) else out == spans
  {
    hide Materialise, MarkerFor, TotalCost, IsWeakest, Materialises;
    out, total := spans, spent;
    for i := 0 to |cands|
      invariant out == spans && total == spent
      invariant forall j | 0 <= j < i :: !IsAnchor(cands[j], lookup)
    {
      if cands[i].tier != Some(CONSTITUTION_STATUTE) { continue; }
      var span := Materialise(cands[i], lookup, MarkerFor(|spans| + 1));
      AnchorMeans(cands[i], lookup, MarkerFor(|spans| + 1));
      if span.None? { continue; }
      var c := cost(span.value.excerpt);
      if total + c > limits.tokenBudget && out != [] {
        var w := WeakestSpan(out);
        WeakestIsThere(out, w);
        out := Evicted(out, w);
        total := CountTokens(out, cost);
      }
      assert MadeRoom(spans, out, span.value, limits, cost);
      TotalCostSnoc(out, span.value, cost);
      out, total := out + [span.value], total + c;
      assert out[..|out| - 1] + [span.value] == out;
      assert IsAnchor(cands[i], lookup);
      return;
    }
  }

  lemma WeakestIsThere(spans: seq<EvidenceSpan>, w: nat)
    requires IsWeakest(spans, w)
    ensures w < |spans|
  {
  }

  lemma AnchorMeans(c: Candidate, lookup: Lookup, m: string)
    ensures IsAnchor(c, lookup) <==> c.tier == Some(CONSTITUTION_STATUTE) && Materialise(c, lookup, m).Some?
  {
    hide Materialise;
    MarkerIsFree(c, lookup, m, "");
  }

  /** The sum over the spans, taken afresh. */
  method CountTokens(spans: seq<EvidenceSpan>, cost: Cost) returns (n: nat)
    ensures n == TotalCost(spans, cost)
  {
    n := 0;
    for i := 0 to |spans|
      invariant n == TotalCost(spans[..i], cost)
    {
      assert spans[..i + 1] == spans[..i] + [spans[i]];
      TotalCostSnoc(spans[..i], spans[i], cost);
      n := n + cost(spans[i].excerpt);
    }
    assert spans[..|spans|] == spans;
  }

  lemma WithoutCosts(spans: seq<EvidenceSpan>, w: nat, cost: Cost)
    requires w < |spans|
    ensures TotalCost(Evicted(spans, w), cost) + cost(spans[w].excerpt) == TotalCost(spans, cost)
  {
    hide TotalCost;
    CostConcat(spans[..w], spans[w + 1..], cost);
    TotalCostSnoc(spans[..w], spans[w], cost);
    CostConcat(spans[..w] + [spans[w]], spans[w + 1..], cost);
    assert spans == spans[..w] + [spans[w]] + spans[w + 1..];
  }

  /** After a first pass, adding the anchor goes over the budget by no more than the anchor itself costs. */
  lemma AnchorOverrun(cands: seq<Candidate>, lookup: Lookup, limits: Limits, cost: Cost, spans: seq<EvidenceSpan>,
                      out: seq<EvidenceSpan>)
    requires Anchored(cands, lookup, limits, cost, spans, out)
    requires TotalCost(spans, cost) <= limits.tokenBudget || |spans| == 1
    ensures TotalCost(out, cost) <= limits.tokenBudget + cost(out[|out| - 1].excerpt)
    ensures |spans| <= |out| <= |spans| + 1
  {
    hide TotalCost, Materialise, MarkerFor, Materialises, IsAnchor;
    var n := |out| - 1;
    assert out == out[..n] + [out[n]];
    TotalCostSnoc(out[..n], out[n], cost);
    if out[..n] != spans {
      var w :| IsWeakest(spans, w) && out[..n] == Evicted(spans, w);
      WithoutCosts(spans, w, cost);
      if |spans| == 1 { NoCost(cost); assert out[..n] == []; }
    }
  }

  lemma NoCost(cost: Cost)
    ensures TotalCost([], cost) == 0
  {
  }
}
