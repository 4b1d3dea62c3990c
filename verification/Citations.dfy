/** Citations and entities found in a text: fusing titles with reporter citations, and dropping overlaps. */
module Citations {
  import opened Wrappers
  import opened SpanSweep

  datatype Kind = Combined | Reporter | Neutral | CaseTitle

  /** The parts of a citation that come from its reporter. */
  datatype Reported = Reported(
    court: string, year: Option<int>, reporter: Option<string>, volume: Option<string>, page: Option<string>,
    number: Option<string>, extras: map<string, string>)

  datatype Citation = Citation(
    raw: string, kind: Kind, start: int, end: int, canonicalId: string, reported: Reported,
    parties: Option<(string, string)>)

  const MERGE_GAP := 40

  /** The raw text is what stands at the citation's place in the text. */
  predicate Quotes(c: Citation, text: string) {
    0 <= c.start < c.end <= |text| && c.raw == text[c.start..c.end]
  }

  ghost predicate AllQuote(cs: seq<Citation>, text: string) {
    forall i | 0 <= i < |cs| :: Quotes(cs[i], text)
  }

  function Max(a: int, b: int): int {
    if a < b then b else a
  }

  /** The title's place and parties with the reporter's identity. */
  function Fused(t: Citation, r: Citation, text: string): Citation
    requires 0 <= t.start <= Max(t.end, r.end) <= |text|
  {
    var end := Max(t.end, r.end);
    Citation(text[t.start..end], Combined, t.start, end, r.canonicalId, r.reported, t.parties)
  }

  // ---------------------------------------------------------------------------
  // Which reporter goes with which title
  // ---------------------------------------------------------------------------

  function Gap(t: Citation, r: Citation): int {
    r.start - t.end
  }

  predicate Near(t: Citation, r: Citation) {
    -2 <= Gap(t, r) <= MERGE_GAP
  }

  /**
   * `m` is the partner of `t`: the nearest free reporter that is near enough, the first of equals; none if
   * there is none.
   */
  ghost predicate IsNearest(t: Citation, reporters: seq<Citation>, taken: set<nat>, m: Option<nat>) {
    match m
    case None => forall i | 0 <= i < |reporters| && i !in taken :: !Near(t, reporters[i])
    case Some(k) =>
      && k < |reporters| && k !in taken && Near(t, reporters[k])
      && (forall i | 0 <= i < |reporters| && i !in taken && Near(t, reporters[i]) ::
        Gap(t, reporters[k]) <= Gap(t, reporters[i]))
      && forall i | 0 <= i < k && i !in taken && Near(t, reporters[i]) :: Gap(t, reporters[k]) < Gap(t, reporters[i])
  }

  method FindNearest(t: Citation, reporters: seq<Citation>, taken: set<nat>) returns (m: Option<nat>)
    ensures IsNearest(t, reporters, taken, m)
  {
    m := None;
    var bestGap := MERGE_GAP + 1;
    for i := 0 to |reporters|
      invariant m.None? ==> bestGap == MERGE_GAP + 1
      invariant m.Some? ==> m.value < i && bestGap == Gap(t, reporters[m.value])
      invariant IsNearest(t, reporters[..i], taken, m)
    {
      assert reporters[..i + 1] == reporters[..i] + [reporters[i]];
      if i in taken { continue; }
      var gap := Gap(t, reporters[i]);
      if -2 <= gap < bestGap {
        m := Some(i);
        bestGap := gap;
      }
    }
    assert reporters[..|reporters|] == reporters;
  }

  /** The reporters taken by the titles matched so far. */
  function TakenBy(partners: seq<Option<nat>>): set<nat> {
    set k | 0 <= k < |partners| && partners[k].Some? :: partners[k].value
  }

  /** Title by title, each gets the nearest reporter the titles before it left. */
  ghost predicate Matched(titles: seq<Citation>, reporters: seq<Citation>, partners: seq<Option<nat>>) {
    && |partners| <= |titles|
    && forall k | 0 <= k < |partners| :: IsNearest(titles[k], reporters, TakenBy(partners[..k]), partners[k])
  }

  function Entry(t: Citation, m: Option<nat>, reporters: seq<Citation>, text: string): Citation
    requires 0 <= t.start < t.end <= |text|
    requires m.Some? ==> m.value < |reporters| && reporters[m.value].end <= |text|
  {
    if m.Some? then Fused(t, reporters[m.value], text) else t
  }

  function Leftover(reporters: seq<Citation>, taken: set<nat>): seq<Citation> {
    if reporters == [] then []
    else
      var n: nat := |reporters| - 1;
      Leftover(reporters[..n], taken) + (if n in taken then [] else [reporters[n]])
  }

  /** One entry for each title in turn, then the reporters no title took. */
  ghost predicate Merged(titles: seq<Citation>, reporters: seq<Citation>, text: string,
                         partners: seq<Option<nat>>, out: seq<Citation>)
    requires AllQuote(titles, text) && AllQuote(reporters, text)
  {
    && |partners| == |titles| && Matched(titles, reporters, partners)
    && |out| >= |titles| && out[|titles|..] == Leftover(reporters, TakenBy(partners))
    && forall k | 0 <= k < |titles| :: out[k] == Entry(titles[k], partners[k], reporters, text)
  }

  lemma MatchGrows(titles: seq<Citation>, reporters: seq<Citation>, partners: seq<Option<nat>>, m: Option<nat>)
    requires Matched(titles, reporters, partners) && |partners| < |titles|
    requires IsNearest(titles[|partners|], reporters, TakenBy(partners), m)
    ensures Matched(titles, reporters, partners + [m])
    ensures TakenBy(partners + [m]) == TakenBy(partners) + (if m.Some? then {m.value} else {})
  {
    hide IsNearest;
    var longer := partners + [m];
    assert forall k | 0 <= k <= |partners| :: longer[..k] == partners[..k];
    assert partners[..|partners|] == partners;
    forall k ensures k in TakenBy(longer) <==> k in TakenBy(partners) || m == Some(k) {
      if k in TakenBy(partners) {
        var j :| 0 <= j < |partners| && partners[j].Some? && partners[j].value == k;
        assert longer[j] == partners[j];
      }
      if m == Some(k) { assert longer[|partners|] == m; }
    }
  }

  method MergeTitles(titles: seq<Citation>, reporters: seq<Citation>, text: string)
    returns (merged: seq<Citation>)
    requires AllQuote(titles, text) && AllQuote(reporters, text)
    ensures exists partners :: Merged(titles, reporters, text, partners, merged)
  {
    hide Near, Gap, Fused;
    merged := [];
    ghost var partners: seq<Option<nat>> := [];
    var consumed: set<nat> := {};
    for k := 0 to |titles|
      invariant |partners| == k == |merged| && Matched(titles, reporters, partners) && consumed == TakenBy(partners)
      invariant forall j | 0 <= j < k :: merged[j] == Entry(titles[j], partners[j], reporters, text)
    {
      var m := FindNearest(titles[k], reporters, consumed);
      MatchGrows(titles, reporters, partners, m);
      if m.Some? {
        consumed := consumed + {m.value};
        merged := merged + [Fused(titles[k], reporters[m.value], text)];
      } else {
        merged := merged + [titles[k]];
      }
      partners := partners + [m];
    }
    ghost var heads := merged;
    for i := 0 to |reporters|
      invariant merged == heads + Leftover(reporters[..i], consumed)
    {
      assert reporters[..i + 1][..i] == reporters[..i];
      if i !in consumed { merged := merged + [reporters[i]]; }
    }
    assert reporters[..|reporters|] == reporters;
    assert Merged(titles, reporters, text, partners, merged);
  }

  // --- what merging preserves -------------------------------------------------

  lemma PartnersAreNear(titles: seq<Citation>, reporters: seq<Citation>, partners: seq<Option<nat>>, k: nat)
    requires Matched(titles, reporters, partners) && k < |partners| && partners[k].Some?
    ensures partners[k].value < |reporters| && Near(titles[k], reporters[partners[k].value])
    ensures partners[k].value !in TakenBy(partners[..k])
  {
    assert IsNearest(titles[k], reporters, TakenBy(partners[..k]), partners[k]);
  }

  /** No reporter is given to two titles. */
  lemma MatchingIsOneToOne(titles: seq<Citation>, reporters: seq<Citation>, partners: seq<Option<nat>>, j: nat, k: nat)
    requires Matched(titles, reporters, partners) && j < k < |partners| && partners[j].Some? && partners[k].Some?
    ensures partners[j].value != partners[k].value
  {
    hide IsNearest;
    PartnersAreNear(titles, reporters, partners, k);
    assert partners[..k][j] == partners[j];
    assert partners[j].value in TakenBy(partners[..k]);
  }

  lemma {:induction false} LeftoverCount(reporters: seq<Citation>, taken: set<nat>)
    ensures |Leftover(reporters, taken)| + |set i: nat | i < |reporters| && i in taken| == |reporters|
  {
    if reporters == [] {
      assert (set i: nat | i < 0 && i in taken) == {};
    } else {
      var n: nat := |reporters| - 1;
      LeftoverCount(reporters[..n], taken);
      var was, now := set i: nat | i < n && i in taken, set i: nat | i < n + 1 && i in taken;
      assert now == was + (if n in taken then {n} else {});
    }
  }

  lemma {:induction false} TakenCount(titles: seq<Citation>, reporters: seq<Citation>, partners: seq<Option<nat>>)
    requires Matched(titles, reporters, partners)
    ensures |TakenBy(partners)| == Partnered(partners)
    ensures forall i | i in TakenBy(partners) :: i < |reporters|
    decreases |partners|
  {
    if partners != [] {
      var n := |partners| - 1;
      var older, m := partners[..n], partners[n];
      assert forall k | 0 <= k <= n :: older[..k] == partners[..k];
      TakenCount(titles, reporters, older);
      MatchGrows(titles, reporters, older, m);
      assert older + [m] == partners;
      if m.Some? { PartnersAreNear(titles, reporters, partners, n); }
    }
  }

  function Partnered(partners: seq<Option<nat>>): nat {
    if partners == [] then 0
    else Partnered(partners[..|partners| - 1]) + (if partners[|partners| - 1].Some? then 1 else 0)
  }

  /** Each title and each reporter goes into exactly one of the merged citations: every fusion saves one. */
  lemma MergingCounts(titles: seq<Citation>, reporters: seq<Citation>, text: string, partners: seq<Option<nat>>,
                      out: seq<Citation>)
    requires AllQuote(titles, text) && AllQuote(reporters, text) && Merged(titles, reporters, text, partners, out)
    ensures |out| + Partnered(partners) == |titles| + |reporters|
  {
    hide Matched, Entry;
    TakenCount(titles, reporters, partners);
    LeftoverCount(reporters, TakenBy(partners));
    assert (set i: nat | i < |reporters| && i in TakenBy(partners)) == TakenBy(partners);
  }

  lemma {:induction false} LeftoverAre(reporters: seq<Citation>, taken: set<nat>, i: nat)
    requires i < |reporters| && i !in taken
    ensures reporters[i] in Leftover(reporters, taken)
  {
    var n: nat := |reporters| - 1;
    if i < n { LeftoverAre(reporters[..n], taken, i); }
  }

  lemma {:induction false} LeftoverFrom(reporters: seq<Citation>, taken: set<nat>, c: Citation)
    requires c in Leftover(reporters, taken)
    ensures c in reporters
  {
    var n: nat := |reporters| - 1;
    assert reporters == reporters[..n] + [reporters[n]];
    if c in Leftover(reporters[..n], taken) { LeftoverFrom(reporters[..n], taken, c); }
  }

  /**
   * One citation out of a title and a reporter: the title's beginning and parties, the identity and details of the
   * reporter, up to the later of the two ends.
   */
  ghost predicate Combines(c: Citation, t: Citation, r: Citation, text: string) {
    && c.kind == Combined && c.parties == t.parties
    && c.canonicalId == r.canonicalId && c.reported.court == r.reported.court && c.reported.year == r.reported.year
    && c.reported.reporter == r.reported.reporter && c.reported.volume == r.reported.volume
    && c.reported.page == r.reported.page && c.reported.number == r.reported.number
    && c.reported.extras == r.reported.extras
    && c.start == t.start && t.end <= c.end && r.end <= c.end && (c.end == t.end || c.end == r.end)
    && 0 <= c.start <= c.end <= |text| && c.raw == text[c.start..c.end]
  }

  lemma FusedCombines(t: Citation, r: Citation, text: string)
    requires 0 <= t.start <= Max(t.end, r.end) <= |text|
    ensures Combines(Fused(t, r, text), t, r, text)
  {
  }

  /**
   * What becomes of a title: passed on unchanged exactly if no reporter left begins from two characters before its
   * end to forty behind it; else combined with the nearest of these.
   */
  lemma TitlesSurvive(titles: seq<Citation>, reporters: seq<Citation>, text: string, partners: seq<Option<nat>>,
                      out: seq<Citation>, k: nat)
    requires AllQuote(titles, text) && AllQuote(reporters, text) && Merged(titles, reporters, text, partners, out)
    requires k < |titles|
    ensures k < |out|
    ensures partners[k].None? ==>
              && out[k] == titles[k]
              && forall i | 0 <= i < |reporters| && i !in TakenBy(partners[..k]) ::
                   reporters[i].start < titles[k].end - 2 || titles[k].end + 40 < reporters[i].start
    ensures partners[k].Some? ==>
              && partners[k].value < |reporters|
              && var r := reporters[partners[k].value];
              && Combines(out[k], titles[k], r, text)
              && titles[k].end - 2 <= r.start <= titles[k].end + 40
              && forall i | 0 <= i < |reporters| && i !in TakenBy(partners[..k])
                            && titles[k].end - 2 <= reporters[i].start <= titles[k].end + 40 ::
                   r.start <= reporters[i].start
  {
    assert IsNearest(titles[k], reporters, TakenBy(partners[..k]), partners[k]) by {
      assert Matched(titles, reporters, partners);
    }
    assert Quotes(titles[k], text);
    hide Matched, TakenBy, Fused;
    if partners[k].Some? {
      var r := reporters[partners[k].value];
      assert Quotes(r, text);
      FusedCombines(titles[k], r, text);
    }
  }

  /** A reporter is either passed on as it is, or the citation of the title that took it has its identity. */
  lemma ReportersSurvive(titles: seq<Citation>, reporters: seq<Citation>, text: string, partners: seq<Option<nat>>,
                         out: seq<Citation>, i: nat)
    requires AllQuote(titles, text) && AllQuote(reporters, text) && Merged(titles, reporters, text, partners, out)
    requires i < |reporters|
    ensures reporters[i] in out
         || exists k | 0 <= k < |titles| :: partners[k] == Some(i) && Combines(out[k], titles[k], reporters[i], text)
    ensures exists c :: c in out && c.canonicalId == reporters[i].canonicalId && c.reported == reporters[i].reported
  {
    hide Matched, Fused, Combines, Entry;
    if i !in TakenBy(partners) {
      LeftoverAre(reporters, TakenBy(partners), i);
      assert reporters[i] in out[|titles|..];
    } else {
      var k :| 0 <= k < |partners| && partners[k].Some? && partners[k].value == i;
      assert partners[k] == Some(i);
      TitlesSurvive(titles, reporters, text, partners, out, k);
      CombinesIdentity(out[k], titles[k], reporters[i], text);
      assert out[k] in out;
    }
  }

  lemma CombinesIdentity(c: Citation, t: Citation, r: Citation, text: string)
    requires Combines(c, t, r, text)
    ensures c.canonicalId == r.canonicalId && c.reported == r.reported
  {
  }

  /** Where a merged citation comes from. */
  ghost predicate Stems(c: Citation, titles: seq<Citation>, reporters: seq<Citation>, text: string) {
    c in titles || c in reporters || exists t, r :: t in titles && r in reporters && Combines(c, t, r, text)
  }

  lemma MergedStem(titles: seq<Citation>, reporters: seq<Citation>, text: string, partners: seq<Option<nat>>,
                   out: seq<Citation>, c: Citation)
    requires AllQuote(titles, text) && AllQuote(reporters, text) && Merged(titles, reporters, text, partners, out)
    requires c in out
    ensures Stems(c, titles, reporters, text)
  {
    hide Matched, Fused, Combines, Entry;
    var j :| 0 <= j < |out| && out[j] == c;
    if j < |titles| {
      TitlesSurvive(titles, reporters, text, partners, out, j);
      assert titles[j] in titles;
      if partners[j].Some? { assert reporters[partners[j].value] in reporters; }
    } else {
      assert out[j] == out[|titles|..][j - |titles|];
      LeftoverFrom(reporters, TakenBy(partners), c);
    }
  }

  /** Every citation merged still quotes the text it points to. */
  lemma MergedQuote(titles: seq<Citation>, reporters: seq<Citation>, text: string, partners: seq<Option<nat>>,
                    out: seq<Citation>)
    requires AllQuote(titles, text) && AllQuote(reporters, text) && Merged(titles, reporters, text, partners, out)
    ensures AllQuote(out, text)
  {
    hide Matched;
    forall i | 0 <= i < |out| ensures Quotes(out[i], text) {
      if i < |titles| {
        assert Quotes(titles[i], text);
        if partners[i].Some? {
          PartnersAreNear(titles, reporters, partners, i) by { assert Matched(titles, reporters, partners); }
          assert Quotes(reporters[partners[i].value], text);
        }
      } else {
        assert out[i] == out[|titles|..][i - |titles|];
        LeftoverFrom(reporters, TakenBy(partners), out[i]);
        var j :| 0 <= j < |reporters| && reporters[j] == out[i];
      }
    }
  }

  // ---------------------------------------------------------------------------
  // Dropping overlaps
  // ---------------------------------------------------------------------------

  function KindRank(k: Kind): nat {
    match k
    case Combined => 3
    case Reporter => 2
    case Neutral => 2
    case CaseTitle => 1
  }

  function Place(): Citation -> Range {
    (c: Citation) => Range(c.start, c.end, KindRank(c.kind))
  }

  /** What is left after overlaps are settled: the longer wins, then the richer kind. */
  method Dedupe(items: seq<Citation>) returns (out: seq<Citation>)
    ensures out == Sweep(items, Place(), true)
  {
    out := SweepSpans(items, Place(), true);
  }

  lemma SubsetQuotes(items: seq<Citation>, out: seq<Citation>, text: string)
    requires AllQuote(items, text) && multiset(out) <= multiset(items)
    ensures AllQuote(out, text)
  {
    forall i | 0 <= i < |out| ensures Quotes(out[i], text) {
      assert out[i] in multiset(out);
      assert out[i] in items;
      var k :| 0 <= k < |items| && items[k] == out[i];
    }
  }

  /** A title names two parties, so it has at least two characters. */
  ghost predicate AllNameParties(titles: seq<Citation>) {
    forall i | 0 <= i < |titles| :: titles[i].end - titles[i].start >= 2
  }

  /**
   * The extractor's last two steps: citations in order, none overlapping another, each quoting the text. From every
   * title and reporter, fused or not, a chain of overlapping citations that never get shorter leads to one kept.
   */
  method MergeAndDedupe(titles: seq<Citation>, reporters: seq<Citation>, text: string) returns (out: seq<Citation>)
    requires AllQuote(titles, text) && AllQuote(reporters, text)
    ensures AllQuote(out, text) && Apart(out, Place()) && out == Sweep(out, Place(), true)
    ensures exists merged: seq<Citation>, partners ::
              && Merged(titles, reporters, text, partners, merged) && out == Sweep(merged, Place(), true)
              && (forall d | d in merged :: Led(d, out, merged, Place()))
              && forall i | 0 <= i < |reporters| :: exists c: Citation ::
                   c in merged && c.canonicalId == reporters[i].canonicalId && c.reported == reporters[i].reported
    ensures forall c | c in out :: Stems(c, titles, reporters, text)
    ensures forall i | 0 <= i < |titles| :: exists c :: c in out && c.end - c.start >= titles[i].end - titles[i].start
    ensures AllNameParties(titles) ==>
              forall i | 0 <= i < |reporters| ::
                exists c :: c in out && c.end - c.start >= reporters[i].end - reporters[i].start
  {
    hide Sweep, Merged, Led, KindRank, Stems;
    var merged := MergeTitles(titles, reporters, text);
    ghost var partners :| Merged(titles, reporters, text, partners, merged);
    MergedQuote(titles, reporters, text, partners, merged);
    out := Dedupe(merged);
    PlacesArePositive(merged, text);
    SweepIsApart(merged, Place(), true);
    SubsetQuotes(merged, out, text);
    SweepIsIdempotent(merged, Place(), true);
    forall d | d in merged ensures Led(d, out, merged, Place()) {
      DroppedForLonger(merged, Place(), true, d);
    }
    forall i | 0 <= i < |reporters| ensures exists c ::
      c in merged && c.canonicalId == reporters[i].canonicalId && c.reported == reporters[i].reported
    {
      ReportersSurvive(titles, reporters, text, partners, merged, i);
    }
    forall c | c in out ensures Stems(c, titles, reporters, text) {
      assert c in multiset(out);
      assert c in merged;
      MergedStem(titles, reporters, text, partners, merged, c);
    }
    assert Merged(titles, reporters, text, partners, merged) && out == Sweep(merged, Place(), true);
    forall i | 0 <= i < |titles| ensures exists c :: c in out && c.end - c.start >= titles[i].end - titles[i].start {
      var d := TitleGoesSomewhere(titles, reporters, text, partners, merged, i);
      DroppedForLonger(merged, Place(), true, d);
      var c := ChainEndsLonger(merged, out, d);
    }
    forall i | AllNameParties(titles) && 0 <= i < |reporters|
      ensures exists c :: c in out && c.end - c.start >= reporters[i].end - reporters[i].start
    {
      var d := ReporterGoesSomewhere(titles, reporters, text, partners, merged, i);
      DroppedForLonger(merged, Place(), true, d);
      var c := ChainEndsLonger(merged, out, d);
    }
  }

  lemma PlacesArePositive(items: seq<Citation>, text: string)
    requires AllQuote(items, text)
    ensures AllPositive(items, Place())
  {
    forall i | 0 <= i < |items| ensures Place()(items[i]).start < Place()(items[i]).end {
      assert Quotes(items[i], text);
    }
  }

  lemma TitleGoesSomewhere(titles: seq<Citation>, reporters: seq<Citation>, text: string, partners: seq<Option<nat>>,
                           out: seq<Citation>, i: nat) returns (d: Citation)
    requires AllQuote(titles, text) && AllQuote(reporters, text) && Merged(titles, reporters, text, partners, out)
    requires i < |titles|
    ensures d in out && d.start == titles[i].start && d.end >= titles[i].end
  {
    hide Matched;
    d := out[i];
  }

  /** A fused citation reaches over the reporter it took. */
  lemma ReporterGoesSomewhere(titles: seq<Citation>, reporters: seq<Citation>, text: string, partners: seq<Option<nat>>,
                              out: seq<Citation>, i: nat) returns (d: Citation)
    requires AllQuote(titles, text) && AllQuote(reporters, text) && Merged(titles, reporters, text, partners, out)
    requires i < |reporters| && AllNameParties(titles)
    ensures d in out && d.end - d.start >= reporters[i].end - reporters[i].start
  {
    hide Matched, Leftover;
    ReportersSurvive(titles, reporters, text, partners, out, i);
    if reporters[i] in out {
      d := reporters[i];
    } else {
      var k :| 0 <= k < |titles| && partners[k] == Some(i) && Combines(out[k], titles[k], reporters[i], text);
      d := out[k];
      PartnersAreNear(titles, reporters, partners, k) by { assert Matched(titles, reporters, partners); }
      assert Quotes(titles[k], text) && Quotes(reporters[i], text);
    }
  }

  lemma ChainEndsLonger(items: seq<Citation>, out: seq<Citation>, d: Citation) returns (c: Citation)
    requires Led(d, out, items, Place())
    ensures c in out && c.end - c.start >= d.end - d.start
  {
    var k :| 0 <= k < |out| && LeadsTo(d, out[k], items, Place());
    var path :| Chain(path, items, Place()) && path[0] == d && path[|path| - 1] == out[k];
    ChainLengthens(path, items, |path| - 1);
    c := out[k];
  }

  lemma {:induction false} ChainLengthens(path: seq<Citation>, items: seq<Citation>, n: nat)
    requires Chain(path, items, Place()) && n < |path|
    ensures Place()(path[n]).Len() >= Place()(path[0]).Len()
  {
    if n > 0 { ChainLengthens(path, items, n - 1); }
  }

  /** A combined citation is richer than any other, a title poorer. */
  ghost predicate Richer(c: Citation, d: Citation) {
    (c.kind == Combined && d.kind != Combined) || (c.kind != CaseTitle && d.kind == CaseTitle)
  }

  /** Every other citation that overlaps is shorter, or as long and of a poorer kind. */
  ghost predicate Prevails(items: seq<Citation>, c: Citation) {
    forall x | x in items && x.start < c.end && c.start < x.end ::
      x == c || x.end - x.start < c.end - c.start || (x.end - x.start == c.end - c.start && Richer(c, x))
  }

  /** A citation that prevails over all that overlap it, by length and then by kind, is kept. */
  lemma PrevailingIsKept(items: seq<Citation>, text: string, c: Citation)
    requires AllQuote(items, text) && c in items && Prevails(items, c)
    ensures c in Sweep(items, Place(), true)
  {
    hide Sweep;
    var at := Place();
    PlacesArePositive(items, text);
    forall i | 0 <= i < |items| && Overlap(at(c), at(items[i])) ensures items[i] == c || Poorer(at(items[i]), at(c)) {
      assert items[i] in items;
    }
    RichestIsKept(items, at, c);
  }

  // ---------------------------------------------------------------------------
  // Named entities
  // ---------------------------------------------------------------------------

  datatype Entity = Entity(kind: string, text: string, start: int, end: int, fromRegex: bool)

  function EntityPlace(): Entity -> Range {
    (e: Entity) => Range(e.start, e.end, if e.fromRegex then 1 else 0)
  }

  /** Only a strictly longer entity replaces the one before it. */
  method MergeEntities(items: seq<Entity>) returns (out: seq<Entity>)
    ensures out == Sweep(items, EntityPlace(), false)
  {
    out := SweepSpans(items, EntityPlace(), false);
  }

  /**
   * Found by pattern and by model with the same range: the pattern's entity wins, and is kept if nothing else
   * overlaps it.
   */
  lemma RegexBeatsModel(items: seq<Entity>, e: Entity, t: Entity)
    requires AllPositive(items, EntityPlace()) && e in items && t in items
    requires e.fromRegex && !t.fromRegex && e.start == t.start && e.end == t.end
    ensures t !in Sweep(items, EntityPlace(), false)
    ensures (forall x | x in items && x.start < e.end && e.start < x.end ::
               x == e || x == t || x.end - x.start < e.end - e.start)
            ==> e in Sweep(items, EntityPlace(), false)
  {
    hide Sweep;
    var j :| 0 <= j < |items| && items[j] == t;
    assert EntityPlace()(items[j]).start < EntityPlace()(items[j]).end;
    LowerTwinIsDropped(items, EntityPlace(), false, e, t);
    if forall x | x in items && x.start < e.end && e.start < x.end ::
         x == e || x == t || x.end - x.start < e.end - e.start
    {
      AlmostDominantIsKept(items, e, t);
    }
  }

  lemma AlmostDominantIsKept(items: seq<Entity>, e: Entity, t: Entity)
    requires AllPositive(items, EntityPlace()) && e in items && t in items
    requires e.fromRegex && !t.fromRegex && e.start == t.start && e.end == t.end
    requires forall x | x in items && x.start < e.end && e.start < x.end ::
               x == e || x == t || x.end - x.start < e.end - e.start
    ensures e in Sweep(items, EntityPlace(), false)
  {
    var at := EntityPlace();
    DroppedForLonger(items, at, false, e);
    LowerTwinIsDropped(items, at, false, e, t) by {
      var j :| 0 <= j < |items| && items[j] == t;
      assert at(items[j]).start < at(items[j]).end;
    }
    hide Sweep;
    var out := Sweep(items, at, false);
    var k :| 0 <= k < |out| && LeadsTo(e, out[k], items, at);
    var path :| Chain(path, items, at) && path[0] == e && path[|path| - 1] == out[k];
    StuckChain(items, path, e, t, |path| - 1);
    assert out[k] in out;
  }

  lemma {:induction false} StuckChain(items: seq<Entity>, path: seq<Entity>, e: Entity, t: Entity, n: nat)
    requires Chain(path, items, EntityPlace()) && path[0] == e && n < |path|
    requires e.start == t.start && e.end == t.end
    requires forall x | x in items && x.start < e.end && e.start < x.end ::
               x == e || x == t || x.end - x.start < e.end - e.start
    ensures path[n] == e || path[n] == t
  {
    if n > 0 {
      StuckChain(items, path, e, t, n - 1);
      assert path[n] in items;
    }
  }

  /** Every other entity that overlaps one of the two is shorter. */
  ghost predicate OnlyTie(items: seq<Entity>, e: Entity, t: Entity) {
    var at := EntityPlace();
    forall x | x in items && (Overlap(at(x), at(e)) || Overlap(at(x), at(t))) ::
      x == e || x == t || x.end - x.start < e.end - e.start
  }

  lemma EarlierTieWins(items: seq<Entity>, e: Entity, t: Entity)
    requires AllPositive(items, EntityPlace()) && e in items && t in items && OnlyTie(items, e, t)
    requires Overlap(EntityPlace()(e), EntityPlace()(t)) && e.end - e.start == t.end - t.start
    requires e.start < t.start
    ensures e in Sweep(items, EntityPlace(), false) && t !in Sweep(items, EntityPlace(), false)
  {
    hide Sweep;
    var at := EntityPlace();
    forall i | 0 <= i < |items| && Overlap(at(e), at(items[i])) ensures
      || items[i] == e || at(items[i]).Len() < at(e).Len()
      || (at(items[i]).Len() == at(e).Len() && at(e).start < at(items[i]).start)
    {
      assert items[i] in items;
    }
    FirstOfTiesIsKept(items, at, e);
    NotBothKept(items, at, false, e, t);
  }

  /**
   * Exactly when the pattern's entity wins a tie: of two equally long entities that overlap, with nothing as long
   * near them, the pattern's is kept and the model's is not exactly if the pattern's does not start later.
   */
  lemma TieIsForTheEarlier(items: seq<Entity>, e: Entity, t: Entity)
    requires AllPositive(items, EntityPlace()) && e in items && t in items && OnlyTie(items, e, t)
    requires Overlap(EntityPlace()(e), EntityPlace()(t)) && e.end - e.start == t.end - t.start
    requires e.fromRegex && !t.fromRegex
    ensures e in Sweep(items, EntityPlace(), false) <==> e.start <= t.start
    ensures t in Sweep(items, EntityPlace(), false) <==> t.start < e.start
  {
    hide Sweep;
    if e.start < t.start {
      EarlierTieWins(items, e, t);
    } else if t.start < e.start {
      EarlierTieWins(items, t, e);
    } else {
      RegexBeatsModel(items, e, t);
    }
  }

  /** The model's entity wins such a tie when it starts first. */
  lemma ModelCanBeatRegex(text: string, kind: string)
    ensures var e, t := Entity(kind, text, 1, 3, true), Entity(kind, text, 0, 2, false);
            t in Sweep([e, t], EntityPlace(), false) && e !in Sweep([e, t], EntityPlace(), false)
  {
    var e, t := Entity(kind, text, 1, 3, true), Entity(kind, text, 0, 2, false);
    assert [e, t][0] == e && [e, t][1] == t;
    hide Sweep;
    TieIsForTheEarlier([e, t], e, t);
  }
}
