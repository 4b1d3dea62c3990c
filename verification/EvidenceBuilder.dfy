/** The evidence pack: selection, anchor, numbering, conflicts, and whether it is enough. */
module EvidenceBuilder {
  import opened Wrappers
  import opened StableSort
  import opened Ontology
  import opened Text
  import opened Markers
  import opened Enforce
  import opened AnswerFormat
  import opened Evidence
  import opened Generator
  import opened GroundedGenerator
  import opened EvidenceSelection
  import opened EvidenceConflicts

  const STATUTE_INTENTS: set<string> := {
    "statute_lookup", "offence_ingredient", "punishment_lookup", "procedure_lookup", "evidence_rule_lookup",
    "crosswalk_old_new"}

  predicate Statutory(queryType: string): (statutory: bool)
    ensures statutory <==>
            || queryType == "statute_lookup" || queryType == "offence_ingredient" || queryType == "punishment_lookup"
            || queryType == "procedure_lookup" || queryType == "evidence_rule_lookup"
            || queryType == "crosswalk_old_new"
  {
    queryType in STATUTE_INTENTS
  }

  // ---------------------------------------------------------------------------
  // Numbering
  // ---------------------------------------------------------------------------

  function Renumbered(spans: seq<EvidenceSpan>): seq<EvidenceSpan> {
    seq(|spans|, i requires 0 <= i < |spans| => spans[i].(marker := MarkerFor(i + 1)))
  }

  ghost predicate Numbered(spans: seq<EvidenceSpan>) {
    forall i | 0 <= i < |spans| :: spans[i].marker == MarkerFor(i + 1)
  }

  method Renumber(spans: seq<EvidenceSpan>) returns (out: seq<EvidenceSpan>)
    ensures out == Renumbered(spans)
  {
    hide MarkerFor;
    out := spans;
    for i := 0 to |spans|
      invariant |out| == |spans|
      invariant forall j | 0 <= j < i :: out[j] == Renumbered(spans)[j]
      invariant forall j | i <= j < |spans| :: out[j] == spans[j]
    {
      out := out[i := out[i].(marker := MarkerFor(i + 1))];
    }
  }

  lemma {:induction false} RenumberingIsFree(spans: seq<EvidenceSpan>, cost: Cost)
    ensures TotalCost(Renumbered(spans), cost) == TotalCost(spans, cost)
  {
    hide MarkerFor;
    if spans != [] {
      var n := |spans| - 1;
      RenumberingIsFree(spans[..n], cost);
      assert Renumbered(spans)[..n] == Renumbered(spans[..n]);
    }
  }

  lemma {:induction false} DecimalReadsBack(n: nat)
    ensures NumberOf(Decimal(n)) == n && Decimal(n) != [] && AllDigits(Decimal(n))
  {
    hide DigitBlock;
    if n >= 10 {
      DecimalReadsBack(n / 10);
      var last := ('0' as int + n % 10) as char;
      assert Decimal(n) == Decimal(n / 10) + [last];
      assert Decimal(n)[..|Decimal(n)| - 1] == Decimal(n / 10);
    } else {
      assert NumberOf([]) == 0;
      assert Decimal(n)[..|Decimal(n)| - 1] == [];
    }
  }

  /** A marker number is read back as it was written, so different numbers make different markers. */
  lemma MarkerNumber(k: nat)
    ensures LabelNumber(MarkerFor(k)) == k && IsLabel(MarkerFor(k))
  {
    hide DigitBlock, Decimal, NumberOf;
    DecimalReadsBack(k);
    assert MarkerFor(k)[1..] == Decimal(k);
  }

  // ---------------------------------------------------------------------------
  // Confidence
  // ---------------------------------------------------------------------------

  function UpTo3(ts: seq<nat>): seq<nat> {
    if |ts| <= 3 then ts else ts[..3]
  }

  function Sum(ts: seq<nat>): nat {
    if ts == [] then 0 else ts[0] + Sum(ts[1..])
  }

  function ByTier(): (nat, nat) -> bool {
    (a: nat, b: nat) => a <= b
  }

  function TiersOf(spans: seq<EvidenceSpan>): seq<nat> {
    seq(|spans|, i requires 0 <= i < |spans| => spans[i].tier)
  }

  /** From the mean of the three best tiers, compared in whole numbers. */
  function ConfidenceOf(tiers: seq<nat>, statutory: bool): Level {
    if tiers == [] then Low
    else
      var sorted := Sort(tiers, ByTier());
      SortPermutes(tiers, ByTier());
      var top := UpTo3(sorted);
      if statutory && sorted[0] != CONSTITUTION_STATUTE then Low
      else if 2 * Sum(top) <= 5 * |top| && |tiers| >= 2 then High
      else if 2 * Sum(top) <= 9 * |top| then Medium
      else Low
  }

  function Rank(l: Level): nat {
    match l
    case Low => 0
    case Medium => 1
    case High => 2
  }

  lemma TopThreeSum(s: seq<nat>)
    ensures |s| >= 3 ==> UpTo3(s) == [s[0], s[1], s[2]] && Sum(UpTo3(s)) == s[0] + s[1] + s[2]
  {
    if |s| >= 3 {
      var t := [s[0], s[1], s[2]];
      assert UpTo3(s) == t;
      assert t[1..] == [s[1], s[2]] && t[1..][1..] == [s[2]] && t[1..][1..][1..] == [];
      assert Sum([s[2]]) == s[2] + Sum([s[2]][1..]);
    }
  }

  lemma InsertLowersTop(t: nat, s: seq<nat>)
    requires |s| >= 3 && Ordered(ByTier(), s)
    ensures var r := Insert(t, s, ByTier());
            |r| >= 3 && r[0] + r[1] + r[2] <= s[0] + s[1] + s[2] && r[0] <= s[0] && (r[0] == t || r[0] == s[0])
  {
    var le := ByTier();
    assert le(s[0], s[1]) && le(s[1], s[2]);
    var r := Insert(t, s, le);
    InsertPermutes(t, s, le);
    assert |multiset(r)| == 1 + |s|;
    if t > s[0] {
      assert r == [s[0]] + Insert(t, s[1..], le);
      if t > s[1] {
        assert Insert(t, s[1..], le) == [s[1]] + Insert(t, s[1..][1..], le);
        assert Insert(t, s[1..][1..], le)[0] <= s[2];
      } else {
        assert Insert(t, s[1..], le) == [t] + s[1..];
      }
    } else {
      assert r == [t] + s;
    }
  }

  /** The confidence from the best tier and the sum of the best three. */
  function Grade(best: nat, sum: nat, statutory: bool): Level {
    if statutory && best != CONSTITUTION_STATUTE then Low
    else if 2 * sum <= 15 then High
    else if 2 * sum <= 27 then Medium
    else Low
  }

  lemma ConfidenceIsGrade(tiers: seq<nat>, statutory: bool)
    requires |tiers| >= 3
    ensures var s := Sort(tiers, ByTier());
            |s| == |tiers| && ConfidenceOf(tiers, statutory) == Grade(s[0], s[0] + s[1] + s[2], statutory)
  {
    var s := Sort(tiers, ByTier());
    SortPermutes(tiers, ByTier());
    TopThreeSum(s);
    hide Sort, Sum;
  }

  lemma BestTier(tiers: seq<nat>)
    requires tiers != [] && forall i | 0 <= i < |tiers| :: tiers[i] >= 1
    ensures Sort(tiers, ByTier()) != [] && Sort(tiers, ByTier())[0] >= 1
  {
    SortElements(tiers, ByTier());
    hide Sort;
    var s := Sort(tiers, ByTier());
    assert s[0] in s;
  }

  /** With three spans at hand, one more never lowers the confidence. */
  lemma MoreEvidenceNeverHurts(tiers: seq<nat>, t: nat, statutory: bool)
    requires |tiers| >= 3 && forall i | 0 <= i < |tiers| :: tiers[i] >= 1
    requires t >= 1
    ensures Rank(ConfidenceOf([t] + tiers, statutory)) >= Rank(ConfidenceOf(tiers, statutory))
  {
    var le := ByTier();
    assert ([t] + tiers)[1..] == tiers && ([t] + tiers)[0] == t;
    assert Sort([t] + tiers, le) == Insert(t, Sort(tiers, le), le);
    ConfidenceIsGrade(tiers, statutory);
    ConfidenceIsGrade([t] + tiers, statutory);
    BestTier([t] + tiers);
    BestTier(tiers);
    TiersInOrder(tiers);
    InsertLowersTop(t, Sort(tiers, le));
    hide Sort, Insert, ConfidenceOf;
  }

  lemma TiersInOrder(tiers: seq<nat>)
    ensures Ordered(ByTier(), Sort(tiers, ByTier()))
  {
    var le := ByTier();
    assert TotalPreorder(le, tiers);
    SortOrdered(tiers, le);
  }

  lemma {:induction false} SumOfInsert(t: nat, s: seq<nat>)
    ensures Sum(Insert(t, s, ByTier())) == t + Sum(s)
  {
    if s != [] && !ByTier()(t, s[0]) {
      SumOfInsert(t, s[1..]);
    }
  }

  lemma {:induction false} SumOfSort(ts: seq<nat>)
    ensures Sum(Sort(ts, ByTier())) == Sum(ts)
  {
    if ts != [] {
      SumOfSort(ts[1..]);
      SumOfInsert(ts[0], Sort(ts[1..], ByTier()));
    }
  }

  /** All tiers are known authorities, best 1 to worst 8. */
  ghost predicate Tiers(ts: seq<nat>) {
    forall i | 0 <= i < |ts| :: 1 <= ts[i] <= 8
  }

  lemma BestIsOne(ts: seq<nat>)
    requires Tiers(ts) && ts != []
    ensures Sort(ts, ByTier()) != []
    ensures Sort(ts, ByTier())[0] == CONSTITUTION_STATUTE <==> CONSTITUTION_STATUTE in ts
  {
    SortElements(ts, ByTier());
    SortPermutes(ts, ByTier());
    TiersInOrder(ts);
    hide Sort;
    var s := Sort(ts, ByTier());
    assert s[0] in s;
    if CONSTITUTION_STATUTE in ts {
      var i :| 0 <= i < |s| && s[i] == CONSTITUTION_STATUTE;
      assert i > 0 ==> ByTier()(s[0], s[i]);
    }
  }

  /** Up to three tiers count in full. */
  lemma FewTiers(ts: seq<nat>, statutory: bool)
    requires Tiers(ts) && 1 <= |ts| <= 3
    ensures ConfidenceOf(ts, statutory) ==
            if statutory && CONSTITUTION_STATUTE !in ts then Low
            else if 2 * Sum(ts) <= 5 * |ts| && |ts| >= 2 then High
            else if 2 * Sum(ts) <= 9 * |ts| then Medium
            else Low
  {
    BestIsOne(ts);
    SumOfSort(ts);
    SortPermutes(ts, ByTier());
    hide Sort, Sum, Tiers;
    assert |multiset(Sort(ts, ByTier()))| == |multiset(ts)|;
  }

  /** Low confidence: no evidence, a question about statutes without one, or a best three averaging above 4.5. */
  ghost predicate Weak(ts: seq<nat>, statutory: bool) {
    || ts == []
    || (statutory && CONSTITUTION_STATUTE !in ts)
    || 2 * Sum(UpTo3(Sort(ts, ByTier()))) > 9 * |UpTo3(Sort(ts, ByTier()))|
  }

  lemma WeakIsLow(ts: seq<nat>, statutory: bool)
    requires Tiers(ts)
    ensures Weak(ts, statutory) <==> ConfidenceOf(ts, statutory) == Low
  {
    if ts != [] {
      BestIsOne(ts);
    }
    hide Sort, Sum, Tiers;
  }

  ghost predicate NeverHurt(ts: seq<nat>, statutory: bool) {
    forall t | 1 <= t <= 8 :: Rank(ConfidenceOf([t] + ts, statutory)) >= Rank(ConfidenceOf(ts, statutory))
  }

  lemma SumOne(a: nat)
    ensures Sum([a]) == a
  {
    assert [a][1..] == [];
  }

  lemma SumMore(t: nat, ts: seq<nat>)
    ensures Sum([t] + ts) == t + Sum(ts)
  {
    assert ([t] + ts)[1..] == ts;
  }

  /** The lone statute stands whatever joins it; any other single span can be pulled down by a weak second one. */
  lemma OneSpan(a: nat, statutory: bool)
    requires 1 <= a <= 8 && ConfidenceOf([a], statutory) != Low
    ensures NeverHurt([a], statutory) <==> a == 1
  {
    FewTiers([a], statutory);
    SumOne(a);
    forall t | 1 <= t <= 8 ensures
      ConfidenceOf([t] + [a], statutory) == (
        if statutory && t != 1 && a != 1 then Low
        else if t + a <= 5 then High else if t + a <= 9 then Medium else Low)
    {
      FewTiers([t] + [a], statutory);
      SumMore(t, [a]);
    }
    hide ConfidenceOf;
    if a != 1 {
      assert 1 <= 8 <= 8 && Rank(ConfidenceOf([8] + [a], statutory)) == 0;
    }
  }

  /** Two spans that are worth anything can always be pulled down by a third of the lowest tier. */
  lemma TwoSpans(ts: seq<nat>, statutory: bool)
    requires Tiers(ts) && |ts| == 2 && ConfidenceOf(ts, statutory) != Low
    ensures !NeverHurt(ts, statutory)
  {
    FewTiers(ts, statutory);
    FewTiers([8] + ts, statutory);
    SumMore(8, ts);
    assert ts == [ts[0]] + [ts[1]];
    SumMore(ts[0], [ts[1]]);
    SumOne(ts[1]);
    hide ConfidenceOf, Sum;
    assert 1 <= 8 <= 8 && Rank(ConfidenceOf([8] + ts, statutory)) < Rank(ConfidenceOf(ts, statutory));
  }

  /**
   * Exactly when no further span can lower the confidence: there are three already, it is as low as it can be,
   * or the only span is a statute.
   */
  lemma NeverHurtsExactly(ts: seq<nat>, statutory: bool)
    requires Tiers(ts)
    ensures NeverHurt(ts, statutory)
            <==> |ts| >= 3 || Weak(ts, statutory) || ts == [CONSTITUTION_STATUTE]
  {
    hide ConfidenceOf, Weak;
    WeakIsLow(ts, statutory);
    if |ts| >= 3 {
      forall t | 1 <= t <= 8 ensures Rank(ConfidenceOf([t] + ts, statutory)) >= Rank(ConfidenceOf(ts, statutory)) {
        MoreEvidenceNeverHurts(ts, t, statutory);
      }
    } else if !Weak(ts, statutory) && |ts| == 2 {
      TwoSpans(ts, statutory);
    } else if !Weak(ts, statutory) && |ts| == 1 {
      assert ts == [ts[0]];
      OneSpan(ts[0], statutory);
    } else {
      NoneIsLow(statutory);
    }
  }

  lemma NoneIsLow(statutory: bool)
    ensures ConfidenceOf([], statutory) == Low
  {
  }

  /** A pack outside the condition: a third, weak authority turns high confidence into medium. */
  lemma ThirdSpanCanHurt()
    ensures ConfidenceOf([1, 2], false) == High && ConfidenceOf([8, 1, 2], false) == Medium
  {
    var le := ByTier();
    var one: seq<nat>, two: seq<nat>, three: seq<nat> := [2], [1, 2], [8, 1, 2];
    assert one[1..] == [] && two[1..] == one && three[1..] == two;
    assert Sort(one, le) == Insert<nat>(2, [], le) == one;
    assert Sort(two, le) == Insert(1, one, le) == two;
    assert Insert(8, one, le) == one + Insert<nat>(8, [], le) == [2, 8];
    assert Sort(three, le) == Insert(8, two, le) == [1] + Insert(8, one, le) == [1, 2, 8];
    TopThreeSum([1, 2, 8]);
    assert UpTo3(two) == two && Sum(two) == 1 + Sum(one) == 1 + (2 + Sum([])) == 3;
  }

  // ---------------------------------------------------------------------------
  // The builder
  // ---------------------------------------------------------------------------

  ghost predicate HasTier1(spans: seq<EvidenceSpan>) {
    exists i | 0 <= i < |spans| :: spans[i].tier == CONSTITUTION_STATUTE
  }

  ghost predicate HasBinding(spans: seq<EvidenceSpan>) {
    exists i | 0 <= i < |spans| :: spans[i].tier <= HIGH_COURT
  }

  /** `chosen` is the first pass, with an anchor added if the question is about statutes and needs one. */
  ghost predicate Chosen(cands: seq<Candidate>, lookup: Lookup, limits: Limits, cost: Cost, statutory: bool,
                         first: seq<EvidenceSpan>, chosen: seq<EvidenceSpan>) {
    if limits.forceAnchor && statutory && !HasTier1(first) && HasAnchor(cands, lookup) then
      Anchored(cands, lookup, limits, cost, first, chosen)
    else chosen == first
  }

  method AnyTierUpTo(spans: seq<EvidenceSpan>, bound: nat) returns (found: bool)
    ensures found <==> exists i | 0 <= i < |spans| :: spans[i].tier <= bound
  {
    for i := 0 to |spans|
      invariant forall j | 0 <= j < i :: spans[j].tier > bound
    {
      if spans[i].tier <= bound { return true; }
    }
    found := false;
  }

  method AnyTier1(spans: seq<EvidenceSpan>) returns (found: bool)
    ensures found <==> HasTier1(spans)
  {
    for i := 0 to |spans|
      invariant forall j | 0 <= j < i :: spans[j].tier != CONSTITUTION_STATUTE
    {
      if spans[i].tier == CONSTITUTION_STATUTE { return true; }
    }
    found := false;
  }

  /**
   * From ranked candidates to the evidence pack. `first` and `chosen` record the first pass and the spans before
   * they are numbered.
   */
  method Build(queryType: string, cands: seq<Candidate>, lookup: Lookup, limits: Limits, cost: Cost, fold: Fold)
    returns (pack: EvidencePack, tokens: nat, confidence: Level,
             ghost ks: seq<nat>, ghost stop: nat, ghost first: seq<EvidenceSpan>, ghost chosen: seq<EvidenceSpan>)
    requires TiersValid(cands)
    ensures Selected(cands, lookup, limits, cost, ks, first, stop)
    ensures Chosen(cands, lookup, limits, cost, Statutory(queryType), first, chosen)
    ensures pack.spans == Renumbered(chosen) && Numbered(pack.spans)
    ensures tokens == TotalCost(pack.spans, cost)
    ensures pack.conflicts == ConflictsOn(pack.spans, Topics(pack.spans, fold), fold)
    ensures pack.insufficient <==> pack.spans == [] || (Statutory(queryType) && !HasBinding(pack.spans))
    ensures confidence == ConfidenceOf(TiersOf(pack.spans), Statutory(queryType))
  {
    hide Selected, Anchored, HasAnchor, TotalCost, MarkerFor, ConfidenceOf, ConflictsOn, Topics;
    var spans, spent;
    spans, spent, ks, stop := SelectSpans(cands, lookup, limits, cost);
    first := spans;
    tokens := spent;
    var anchored := AnyTier1(spans);
    if limits.forceAnchor && Statutory(queryType) && !anchored {
      spans, tokens := AddAnchor(cands, lookup, limits, cost, spans, spent);
    }
    chosen := spans;
    RenumberingIsFree(spans, cost);
    spans := Renumber(spans);
    var conflicts := DetectConflicts(spans, fold);
    var binding := AnyTierUpTo(spans, HIGH_COURT);
    var sufficient := spans != [] && (!Statutory(queryType) || binding);
    confidence := ConfidenceOf(TiersOf(spans), Statutory(queryType));
    pack := EvidencePack(spans, conflicts, !sufficient);
  }

  /** What the limits mean for a finished pack. */
  lemma PackWithinLimits(cands: seq<Candidate>, lookup: Lookup, limits: Limits, cost: Cost, statutory: bool,
                         ks: seq<nat>, stop: nat, first: seq<EvidenceSpan>, chosen: seq<EvidenceSpan>)
    requires Selected(cands, lookup, limits, cost, ks, first, stop)
    requires Chosen(cands, lookup, limits, cost, statutory, first, chosen)
    ensures var spans := Renumbered(chosen);
            && |spans| <= limits.maxSpans + 1
            && (chosen == first ==>
                  |spans| <= limits.maxSpans && (TotalCost(spans, cost) <= limits.tokenBudget || |spans| == 1))
            && (chosen != first ==>
                  spans != [] && TotalCost(spans, cost) <= limits.tokenBudget + cost(spans[|spans| - 1].excerpt))
  {
    hide Greedy, MadeOf, TierCount, StopsAt, TotalCost, Anchored, HasAnchor, MarkerFor;
    RenumberingIsFree(chosen, cost);
    if limits.forceAnchor && statutory && !HasTier1(first) && HasAnchor(cands, lookup) {
      AnchorOverrun(cands, lookup, limits, cost, first, chosen);
      AnchoredIsThere(cands, lookup, limits, cost, first, chosen);
    }
  }

  function CountTier(spans: seq<EvidenceSpan>, t: nat): nat {
    if spans == [] then 0
    else CountTier(spans[..|spans| - 1], t) + (if spans[|spans| - 1].tier == t then 1 else 0)
  }

  lemma {:induction false} CountTierConcat(a: seq<EvidenceSpan>, b: seq<EvidenceSpan>, t: nat)
    ensures CountTier(a + b, t) == CountTier(a, t) + CountTier(b, t)
  {
    if b == [] {
      assert a + b == a;
    } else {
      var n := |b| - 1;
      CountTierConcat(a, b[..n], t);
      assert (a + b)[..|a + b| - 1] == a + b[..n];
    }
  }

  lemma {:induction false} FirstPassTiers(cands: seq<Candidate>, lookup: Lookup, ks: seq<nat>,
                                          spans: seq<EvidenceSpan>, t: nat)
    requires MadeOf(cands, lookup, ks, spans) && TiersValid(cands)
    ensures CountTier(spans, t) == TierCount(cands, ks, t)
  {
    hide Materialise, MarkerFor;
    if spans != [] {
      var n := |spans| - 1;
      assert MadeOf(cands, lookup, ks[..n], spans[..n]);
      FirstPassTiers(cands, lookup, ks[..n], spans[..n], t);
      MaterialisedTier(cands[ks[n]], lookup, MarkerFor(n + 1));
    }
  }

  lemma WithoutOne(spans: seq<EvidenceSpan>, w: nat, t: nat, cost: Cost)
    requires w < |spans|
    ensures CountTier(Evicted(spans, w), t) <= CountTier(spans, t)
    ensures TotalCost(Evicted(spans, w), cost) == TotalCost(spans, cost) - cost(spans[w].excerpt)
  {
    var a, x, b := spans[..w], [spans[w]], spans[w + 1..];
    assert spans == a + x + b && x[..0] == [];
    CountTierConcat(a + x, b, t);
    CountTierConcat(a, x, t);
    CountTierConcat(a, b, t);
    CostConcat(a + x, b, cost);
    CostConcat(a, x, cost);
    CostConcat(a, b, cost);
    OneCost(spans[w], cost);
  }

  lemma OneCost(s: EvidenceSpan, cost: Cost)
    ensures TotalCost([s], cost) == cost(s.excerpt)
  {
    assert [s][..0] == [];
    assert TotalCost([s][..0], cost) == 0;
  }

  lemma {:induction false} NoTierNoCount(spans: seq<EvidenceSpan>, t: nat)
    requires forall i | 0 <= i < |spans| :: spans[i].tier != t
    ensures CountTier(spans, t) == 0
  {
    if spans != [] { NoTierNoCount(spans[..|spans| - 1], t); }
  }

  /** A topic is the first of place, citation and title that is given and not empty, stripped and in lower case. */
  lemma TopicIs(s: EvidenceSpan, fold: Fold) returns (text: string)
    ensures FirstGiven(Some(text), [s.place, s.citation, s.title, Some("")]) && TopicOf(s, fold) == fold(Strip(text))
  {
    text := TopicText(s);
    var given := [s.place, s.citation, s.title, Some("")];
    assert given[0] == s.place && given[1] == s.citation && given[2] == s.title && given[3] == Some("");
  }

  lemma {:induction false} RenumberedTiers(spans: seq<EvidenceSpan>, t: nat)
    ensures CountTier(Renumbered(spans), t) == CountTier(spans, t)
  {
    hide MarkerFor;
    if spans != [] {
      var n := |spans| - 1;
      RenumberedTiers(spans[..n], t);
      assert Renumbered(spans)[..n] == Renumbered(spans[..n]);
    }
  }

  /** The question wants an anchor, the first pass has none, and there is one to be had. */
  ghost predicate WantsAnchor(cands: seq<Candidate>, lookup: Lookup, limits: Limits, statutory: bool,
                              first: seq<EvidenceSpan>) {
    limits.forceAnchor && statutory && !HasTier1(first) && HasAnchor(cands, lookup)
  }

  lemma RenumberedTells(spans: seq<EvidenceSpan>, k: nat, c: Candidate, lookup: Lookup)
    requires k < |spans| && Tells(spans[k], c, lookup)
    ensures Tells(Renumbered(spans)[k], c, lookup)
  {
    hide IsPlace, FirstGiven, Opening, MarkerFor;
  }

  /** Some candidate is told by the span. */
  ghost predicate TellsOne(s: EvidenceSpan, cands: seq<Candidate>, lookup: Lookup) {
    exists i :: 0 <= i < |cands| && Tells(s, cands[i], lookup)
  }

  lemma FirstPassTells(cands: seq<Candidate>, lookup: Lookup, ks: seq<nat>, spans: seq<EvidenceSpan>, k: nat)
    requires MadeOf(cands, lookup, ks, spans) && k < |spans|
    ensures TellsOne(spans[k], cands, lookup)
  {
    hide Materialise, MarkerFor, Tells;
    EvidenceTells(cands[ks[k]], lookup, MarkerFor(k + 1));
  }

  lemma AnchoredTells(cands: seq<Candidate>, lookup: Lookup, limits: Limits, cost: Cost, ks: seq<nat>,
                      first: seq<EvidenceSpan>, chosen: seq<EvidenceSpan>, k: nat)
    requires MadeOf(cands, lookup, ks, first) && Anchored(cands, lookup, limits, cost, first, chosen) && k < |chosen|
    ensures TellsOne(chosen[k], cands, lookup)
  {
    hide Materialise, MarkerFor, Tells, TotalCost, MadeOf, Materialises;
    var n := |chosen| - 1;
    if k == n {
      var i :| 0 <= i < |cands| && IsAnchor(cands[i], lookup)
               && (forall j | 0 <= j < i :: !IsAnchor(cands[j], lookup))
               && Materialise(cands[i], lookup, MarkerFor(|first| + 1)) == Some(chosen[n]);
      EvidenceTells(cands[i], lookup, MarkerFor(|first| + 1));
    } else {
      hide MadeRoom;
      var j := KeptFromFirst(first, chosen[..n], chosen[n], limits, cost, k);
      FirstPassTells(cands, lookup, ks, first, j);
    }
  }

  lemma KeptFromFirst(first: seq<EvidenceSpan>, kept: seq<EvidenceSpan>, anchor: EvidenceSpan, limits: Limits,
                      cost: Cost, k: nat) returns (j: nat)
    requires MadeRoom(first, kept, anchor, limits, cost) && k < |kept|
    ensures j < |first| && first[j] == kept[k]
  {
    hide TotalCost;
    if kept == first {
      j := k;
    } else {
      var w := OneEvicted(first, kept, anchor, limits, cost);
      WeakestIsThere(first, w);
      j := if k < w then k else k + 1;
    }
  }

  /** Every span of the finished pack says what one of the candidates and the record behind it say, field by field. */
  lemma PackTells(cands: seq<Candidate>, lookup: Lookup, limits: Limits, cost: Cost, statutory: bool,
                  ks: seq<nat>, stop: nat, first: seq<EvidenceSpan>, chosen: seq<EvidenceSpan>, k: nat)
    requires Selected(cands, lookup, limits, cost, ks, first, stop)
    requires Chosen(cands, lookup, limits, cost, statutory, first, chosen) && k < |Renumbered(chosen)|
    ensures exists i :: 0 <= i < |cands| && Tells(Renumbered(chosen)[k], cands[i], lookup)
  {
    hide Greedy, MadeOf, StopsAt, WithinLimits, TotalCost, Anchored, HasAnchor, MarkerFor, Tells;
    if WantsAnchor(cands, lookup, limits, statutory, first) {
      AnchoredTells(cands, lookup, limits, cost, ks, first, chosen, k);
    } else {
      FirstPassTells(cands, lookup, ks, first, k);
    }
    var i :| 0 <= i < |cands| && Tells(chosen[k], cands[i], lookup);
    RenumberedTells(chosen, k, cands[i], lookup);
  }

  /** The tier cap holds for the finished pack, the anchor included. */
  lemma PackWithinTiers(cands: seq<Candidate>, lookup: Lookup, limits: Limits, cost: Cost, statutory: bool,
                        ks: seq<nat>, stop: nat, first: seq<EvidenceSpan>, chosen: seq<EvidenceSpan>, t: nat)
    requires Selected(cands, lookup, limits, cost, ks, first, stop) && TiersValid(cands)
    requires Chosen(cands, lookup, limits, cost, statutory, first, chosen)
    ensures CountTier(Renumbered(chosen), t) <= limits.Cap()
  {
    hide Greedy, MadeOf, StopsAt, TotalCost, Anchored, HasAnchor, MarkerFor, TierCount, CountTier;
    RenumberedTiers(chosen, t);
    FirstPassTiers(cands, lookup, ks, first, t);
    if WantsAnchor(cands, lookup, limits, statutory, first) {
      AnchoredTiers(cands, lookup, limits, cost, first, chosen, t);
    }
  }

  lemma OneEvicted(spans: seq<EvidenceSpan>, kept: seq<EvidenceSpan>, anchor: EvidenceSpan, limits: Limits, cost: Cost)
    returns (w: nat)
    requires MadeRoom(spans, kept, anchor, limits, cost) && kept != spans
    ensures IsWeakest(spans, w) && kept == Evicted(spans, w)
    ensures TotalCost(spans, cost) + cost(anchor.excerpt) > limits.tokenBudget && spans != []
  {
    hide TotalCost, Weaker;
    w :| IsWeakest(spans, w) && kept == Evicted(spans, w);
  }

  lemma AnchoredTiers(cands: seq<Candidate>, lookup: Lookup, limits: Limits, cost: Cost,
                      first: seq<EvidenceSpan>, chosen: seq<EvidenceSpan>, t: nat)
    requires Anchored(cands, lookup, limits, cost, first, chosen) && !HasTier1(first)
    ensures if t == CONSTITUTION_STATUTE then CountTier(chosen, t) == 1
            else CountTier(chosen, t) <= CountTier(first, t)
  {
    hide Materialise, MarkerFor, TotalCost, IsWeakest, Materialises;
    var n := |chosen| - 1;
    var anchor := chosen[n];
    AnchorHasTier1(cands, lookup, limits, cost, first, chosen);
    assert chosen[..n] + [anchor] == chosen;
    if chosen[..n] != first {
      var w := OneEvicted(first, chosen[..n], anchor, limits, cost);
      WeakestIsThere(first, w);
      WithoutOne(first, w, t, cost);
    }
    if t == CONSTITUTION_STATUTE { NoTierNoCount(first, t); }
  }

  lemma AnchorHasTier1(cands: seq<Candidate>, lookup: Lookup, limits: Limits, cost: Cost,
                       first: seq<EvidenceSpan>, chosen: seq<EvidenceSpan>)
    requires Anchored(cands, lookup, limits, cost, first, chosen)
    ensures chosen[|chosen| - 1].tier == CONSTITUTION_STATUTE
  {
    hide Materialise, MarkerFor, TotalCost, IsWeakest, MadeRoom;
    var i :| 0 <= i < |cands| && IsAnchor(cands[i], lookup)
             && (forall j | 0 <= j < i :: !IsAnchor(cands[j], lookup))
             && Materialise(cands[i], lookup, MarkerFor(|first| + 1)) == Some(chosen[|chosen| - 1]);
    MaterialisedTier(cands[i], lookup, MarkerFor(|first| + 1));
  }

  /**
   * Exactly when a finished pack is over budget: a lone first span that is too long; or an anchor that is too long
   * for what is left of the budget, even when the weakest span has gone.
   */
  lemma PackOverBudget(cands: seq<Candidate>, lookup: Lookup, limits: Limits, cost: Cost, statutory: bool,
                       ks: seq<nat>, stop: nat, first: seq<EvidenceSpan>, chosen: seq<EvidenceSpan>)
    requires Selected(cands, lookup, limits, cost, ks, first, stop)
    requires Chosen(cands, lookup, limits, cost, statutory, first, chosen)
    ensures TotalCost(Renumbered(chosen), cost) > limits.tokenBudget <==>
            if !WantsAnchor(cands, lookup, limits, statutory, first) then
              |first| == 1 && cost(first[0].excerpt) > limits.tokenBudget
            else
              chosen != [] && TooLong(first, chosen[|chosen| - 1], limits, cost)
  {
    hide Greedy, MadeOf, StopsAt, TotalCost, Anchored, HasAnchor, MarkerFor, TierCount;
    RenumberingIsFree(chosen, cost);
    if WantsAnchor(cands, lookup, limits, statutory, first) {
      AnchoredCost(cands, lookup, limits, cost, first, chosen);
    } else if |first| == 1 {
      OneCost(first[0], cost);
      assert first == [first[0]];
    }
  }

  /** Too long with the weakest span gone. */
  ghost predicate StillTooLong(first: seq<EvidenceSpan>, w: nat, anchor: EvidenceSpan, limits: Limits, cost: Cost) {
    && IsWeakest(first, w)
    && TotalCost(first, cost) - cost(first[w].excerpt) + cost(anchor.excerpt) > limits.tokenBudget
  }

  ghost predicate TooLong(first: seq<EvidenceSpan>, anchor: EvidenceSpan, limits: Limits, cost: Cost) {
    && TotalCost(first, cost) + cost(anchor.excerpt) > limits.tokenBudget
    && (first == [] || exists w: nat :: StillTooLong(first, w, anchor, limits, cost))
  }

  lemma OneWeakest(spans: seq<EvidenceSpan>, v: nat, w: nat)
    requires IsWeakest(spans, v) && IsWeakest(spans, w)
    ensures v == w
  {
    assert spans[v].tier == spans[w].tier && spans[v].score == spans[w].score;
  }

  lemma CostWithAnchor(first: seq<EvidenceSpan>, kept: seq<EvidenceSpan>, anchor: EvidenceSpan, limits: Limits,
                       cost: Cost)
    requires MadeRoom(first, kept, anchor, limits, cost)
    ensures TotalCost(kept, cost) + cost(anchor.excerpt) > limits.tokenBudget <==> TooLong(first, anchor, limits, cost)
  {
    hide TotalCost, Weaker, CountTier;
    if TotalCost(first, cost) + cost(anchor.excerpt) > limits.tokenBudget && first != [] {
      var w: nat :| IsWeakest(first, w) && kept == Evicted(first, w);
      WithoutOne(first, w, 0, cost);
      assert StillTooLong(first, w, anchor, limits, cost) <==>
             TotalCost(kept, cost) + cost(anchor.excerpt) > limits.tokenBudget;
      hide MadeRoom, Evicted;
      forall v: nat | StillTooLong(first, v, anchor, limits, cost) ensures v == w { OneWeakest(first, v, w); }
    }
  }

  lemma AnchoredCost(cands: seq<Candidate>, lookup: Lookup, limits: Limits, cost: Cost,
                     first: seq<EvidenceSpan>, chosen: seq<EvidenceSpan>)
    requires Anchored(cands, lookup, limits, cost, first, chosen)
    ensures chosen != []
    ensures TotalCost(chosen, cost) > limits.tokenBudget <==> TooLong(first, chosen[|chosen| - 1], limits, cost)
  {
    hide Materialise, MarkerFor, TotalCost, Materialises, IsAnchor, MadeRoom, TooLong;
    var n := |chosen| - 1;
    assert chosen[..n] + [chosen[n]] == chosen;
    TotalCostSnoc(chosen[..n], chosen[n], cost);
    CostWithAnchor(first, chosen[..n], chosen[n], limits, cost);
  }

  lemma AnchoredIsThere(cands: seq<Candidate>, lookup: Lookup, limits: Limits, cost: Cost,
                        first: seq<EvidenceSpan>, chosen: seq<EvidenceSpan>)
    requires Anchored(cands, lookup, limits, cost, first, chosen)
    ensures chosen != [] && HasTier1(chosen)
  {
    hide Materialise, MarkerFor, TotalCost, TierFor, MadeRoom;
    var i :| 0 <= i < |cands| && IsAnchor(cands[i], lookup)
      && Materialise(cands[i], lookup, MarkerFor(|first| + 1)) == Some(chosen[|chosen| - 1]);
    MaterialisedTier(cands[i], lookup, MarkerFor(|first| + 1));
    StatedTier(cands[i]);
  }

  lemma StatedTier(c: Candidate)
    ensures c.tier.Some? ==> TierFor(c) == c.tier.value
  {
  }

  /** With the switch on, a question about statutes gets a binding text whenever any candidate can provide one. */
  lemma AnchorIsPresent(cands: seq<Candidate>, lookup: Lookup, limits: Limits, cost: Cost,
                        first: seq<EvidenceSpan>, chosen: seq<EvidenceSpan>)
    requires Chosen(cands, lookup, limits, cost, true, first, chosen)
    requires limits.forceAnchor && HasAnchor(cands, lookup)
    ensures HasTier1(Renumbered(chosen)) && HasBinding(Renumbered(chosen))
  {
    hide HasAnchor, Anchored, MarkerFor;
    if !HasTier1(first) { AnchoredIsThere(cands, lookup, limits, cost, first, chosen); }
    var i :| 0 <= i < |chosen| && chosen[i].tier == CONSTITUTION_STATUTE;
    assert Renumbered(chosen)[i].tier == CONSTITUTION_STATUTE;
  }

  // ---------------------------------------------------------------------------
  // A numbered pack and its citations
  // ---------------------------------------------------------------------------

  lemma NumberedResolves(spans: seq<EvidenceSpan>, k: nat)
    requires Numbered(spans) && k < |spans|
    ensures SpanFor(spans, MarkerFor(k + 1)) == Some(spans[k])
    ensures IsLabel(spans[k].marker)
  {
    hide IsLabel, LabelNumber, MarkerFor, SpanFor;
    MarkerNumber(k + 1);
    assert spans[k] in spans;
    assert spans[k].marker == MarkerFor(k + 1);
    var s := SpanFor(spans, MarkerFor(k + 1)).value;
    var j :| 0 <= j < |spans| && spans[j] == s;
    MarkerNumber(j + 1);
  }

  lemma {:induction false} CitationMarkers(cs: seq<AnswerCitation>)
    requires Ascending(cs)
    ensures |set c | c in cs :: c.marker| == |cs|
  {
    hide LabelNumber;
    if cs != [] {
      var n := |cs| - 1;
      CitationMarkers(cs[..n]);
      assert cs == cs[..n] + [cs[n]];
      assert (set c | c in cs :: c.marker) == (set c | c in cs[..n] :: c.marker) + {cs[n].marker};
      assert cs[n].marker !in set c | c in cs[..n] :: c.marker;
    }
  }

  lemma {:induction false} MarkerCount(spans: seq<EvidenceSpan>)
    requires Numbered(spans)
    ensures |PackMarkers(spans)| == |spans|
  {
    hide MarkerFor, IsLabel, LabelNumber;
    if spans != [] {
      var n := |spans| - 1;
      MarkerCount(spans[..n]);
      assert spans == spans[..n] + [spans[n]];
      assert PackMarkers(spans) == PackMarkers(spans[..n]) + {spans[n].marker};
      MarkerNumber(n + 1);
      forall s | s in spans[..n] ensures s.marker != spans[n].marker {
        var j :| 0 <= j < n && spans[j] == s;
        MarkerNumber(j + 1);
      }
    }
  }

  /**
   * Built pack, fallback provider: every span of the evidence pack is cited, each exactly once, and nothing
   * else is.
   */
  lemma WholePackIsCited(pack: EvidencePack, out: Outcome, ord: Order)
    requires Numbered(pack.spans) && pack.spans != []
    requires IsOrder(ord) && IsGrounded(out, pack, Raw(pack, None), ord)
    ensures |out.public| + |out.private| == |pack.spans|
    ensures forall k | 0 <= k < |pack.spans| ::
              CitationOf(MarkerFor(k + 1), pack.spans[k]) in (if pack.spans[k].private then out.private else out.public)
  {
    hide IsLabel, SpanFor, LabelSet, Rendered, EnforcedOf, StubText, Join, PackLines, MarkerFor, CitationOf, IsOrder,
      LabelNumber;
    var spans := pack.spans;
    forall k | 0 <= k < |spans| ensures IsLabel(spans[k].marker) && SpanFor(spans, MarkerFor(k + 1)) == Some(spans[k]) {
      NumberedResolves(spans, k);
    }
    assert spans[0] in spans && IsLabel(spans[0].marker);
    FallbackCitesEverySpan(out, pack, ord);
    forall k | 0 <= k < |spans|
      ensures CitationOf(MarkerFor(k + 1), spans[k]) in (if spans[k].private then out.private else out.public)
    {
      assert spans[k] in spans && spans[k].marker in LabelSet(out.text);
    }
    FallbackSplicesNothing(pack, spans[0]);
    GroundedIsExact(out, pack, Raw(pack, None), ord);
    MarkerCount(spans);
    CitationMarkers(out.public);
    CitationMarkers(out.private);
    CitedApart(pack, out);
  }

  lemma CitedApart(pack: EvidencePack, out: Outcome)
    requires EachCitedOnce(out, pack.spans)
    requires LabelSet(out.text) <= PackMarkers(pack.spans)
    requires forall s | s in pack.spans && IsLabel(s.marker) :: s.marker in LabelSet(out.text)
    requires forall k | 0 <= k < |pack.spans| :: IsLabel(pack.spans[k].marker)
    ensures |set c | c in out.public :: c.marker| + |set c | c in out.private :: c.marker| == |PackMarkers(pack.spans)|
  {
    hide LabelSet, SpanFor, IsLabel, LabelNumber;
    var a, b := set c | c in out.public :: c.marker, set c | c in out.private :: c.marker;
    MarkersCited(pack, out);
    forall m | m in a ensures m in LabelSet(out.text) && CitedIn(out.public, m) {
      var c :| c in out.public && c.marker == m;
      assert c in out.public + out.private;
    }
    forall m | m in b ensures CitedIn(out.private, m) {
      var c :| c in out.private && c.marker == m;
    }
    assert a * b == {};
  }

  lemma MarkersCited(pack: EvidencePack, out: Outcome)
    requires EachCitedOnce(out, pack.spans)
    requires LabelSet(out.text) <= PackMarkers(pack.spans)
    requires forall s | s in pack.spans && IsLabel(s.marker) :: s.marker in LabelSet(out.text)
    requires forall k | 0 <= k < |pack.spans| :: IsLabel(pack.spans[k].marker)
    ensures (set c | c in out.public :: c.marker) + (set c | c in out.private :: c.marker) == PackMarkers(pack.spans)
  {
    hide LabelSet, SpanFor, IsLabel, LabelNumber;
    var a, b := set c | c in out.public :: c.marker, set c | c in out.private :: c.marker;
    forall m | m in PackMarkers(pack.spans) ensures m in a + b {
      var s :| s in pack.spans && s.marker == m;
      var k :| 0 <= k < |pack.spans| && pack.spans[k] == s;
      assert m in LabelSet(out.text);
      assert CitedIn(out.private, m) || CitedIn(out.public, m);
    }
    forall m | m in a + b ensures m in PackMarkers(pack.spans) {
      if m in a { var c :| c in out.public && c.marker == m; assert c in out.public + out.private; }
      if m in b { var c :| c in out.private && c.marker == m; assert c in out.public + out.private; }
    }
  }
}
