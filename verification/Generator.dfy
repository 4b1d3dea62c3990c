/** The grounded generator: the evidence pack as text, the fallback provider, citations, and when it refuses. */
module Generator {
  import opened Wrappers
  import opened StableSort
  import opened Text
  import opened Spelling
  import opened Markers
  import opened Sentences
  import opened Sections
  import opened Enforce
  import opened AnswerFormat
  import opened RoundTrip
  import opened Evidence
  import opened Cleaning

  // ---------------------------------------------------------------------------
  // The evidence pack as text
  // ---------------------------------------------------------------------------

  function Labels(fields: seq<Option<string>>): seq<string> {
    if fields == [] then []
    else (if fields[0].Some? && fields[0].value != [] then [fields[0].value] else []) + Labels(fields[1..])
  }

  function SpanHeader(s: EvidenceSpan): string {
    Join(" | ",
         [Bracket(s.marker) + " tier=" + Decimal(s.tier) + " kind=" + (if s.private then "private" else "public")]
         + Labels([s.title, s.place, s.citation, s.court, s.date]))
  }

  function SpanLines(spans: seq<EvidenceSpan>): seq<string> {
    if spans == [] then []
    else
      var n := |spans| - 1;
      SpanLines(spans[..n]) + [SpanHeader(spans[n]), Strip(spans[n].excerpt), "---"]
  }

  function ConflictLines(conflicts: seq<Conflict>): seq<string> {
    if conflicts == [] then []
    else
      var n := |conflicts| - 1;
      var c := conflicts[n];
      ConflictLines(conflicts[..n]) + ["- " + c.description + "  (markers: " + Join(", ", c.markers) + ")"]
  }

  function PackLines(pack: EvidencePack): seq<string> {
    SpanLines(pack.spans)
    + (if pack.conflicts == [] then [] else ["Conflicts:"] + ConflictLines(pack.conflicts))
  }

  /** Headers, excerpts and conflicts, one under the other. */
  method FormatPack(pack: EvidencePack) returns (text: string)
    ensures text == Join("\n", PackLines(pack))
  {
    hide Join, SpanHeader, Strip;
    var lines: seq<string> := [];
    for k := 0 to |pack.spans|
      invariant lines == SpanLines(pack.spans[..k])
    {
      assert pack.spans[..k + 1][..k] == pack.spans[..k];
      lines := lines + [SpanHeader(pack.spans[k]), Strip(pack.spans[k].excerpt), "---"];
    }
    assert pack.spans[..|pack.spans|] == pack.spans;
    if pack.conflicts != [] {
      lines := lines + ["Conflicts:"];
      for k := 0 to |pack.conflicts|
        invariant lines == SpanLines(pack.spans) + (["Conflicts:"] + ConflictLines(pack.conflicts[..k]))
      {
        assert pack.conflicts[..k + 1][..k] == pack.conflicts[..k];
        var c := pack.conflicts[k];
        lines := lines + ["- " + c.description + "  (markers: " + Join(", ", c.markers) + ")"];
      }
      assert pack.conflicts[..|pack.conflicts|] == pack.conflicts;
    }
    assert lines == PackLines(pack);
    text := Join("\n", lines);
  }

  lemma HeaderShowsMarker(s: EvidenceSpan)
    requires IsLabel(s.marker)
    ensures s.marker in MarkersOf(SpanHeader(s))
  {
    hide IsLabel, MarkersOf, Decimal;
    var first := Bracket(s.marker) + " tier=" + Decimal(s.tier) + " kind="
      + (if s.private then "private" else "public");
    var rest := Labels([s.title, s.place, s.citation, s.court, s.date]);
    var w := Bracket(s.marker);
    assert w <= first;
    assert first <= SpanHeader(s) by {
      if rest != [] { assert ([first] + rest)[0] == first; } else { assert [first] + rest == [first]; }
    }
    assert w <= SpanHeader(s);
    assert Occurs(SpanHeader(s), 0, w);
    MarkersAreOccurrences(SpanHeader(s), s.marker);
  }

  /** A label in a header, if the field is there and not empty. */
  ghost function Labelled(field: Option<string>): string {
    if field.None? || field.value == "" then "" else " | " + field.value
  }

  /** Joining may begin with the first two parts. */
  lemma JoinFirstTwo(sep: string, a: string, b: string, rest: seq<string>)
    ensures Join(sep, [a] + ([b] + rest)) == Join(sep, [a + sep + b] + rest)
  {
    assert ([a] + ([b] + rest))[1..] == [b] + rest;
    assert ([b] + rest)[1..] == rest && ([a + sep + b] + rest)[1..] == rest;
    if rest != [] { assert a + sep + (b + sep + Join(sep, rest)) == a + sep + b + sep + Join(sep, rest); }
  }

  lemma LabelsCons(a: Option<string>, rest: seq<Option<string>>)
    ensures Labels([a] + rest) == (if a.Some? && a.value != "" then [a.value] else []) + Labels(rest)
  {
    assert ([a] + rest)[1..] == rest;
  }

  lemma LabelsJoin(first: string, a: Option<string>, rest: seq<Option<string>>)
    ensures Join(" | ", [first] + Labels([a] + rest)) == Join(" | ", [first + Labelled(a)] + Labels(rest))
  {
    LabelsCons(a, rest);
    hide Labels, Join;
    if a.Some? && a.value != "" {
      JoinFirstTwo(" | ", first, a.value, Labels(rest));
      assert first + " | " + a.value == first + Labelled(a);
    } else {
      assert [] + Labels(rest) == Labels(rest) && first + Labelled(a) == first;
    }
  }

  /** The header of a span: marker, tier and kind, then title, place, citation, court and date as far as given. */
  lemma HeaderIs(s: EvidenceSpan)
    ensures SpanHeader(s) ==
            "[" + s.marker + "] tier=" + Decimal(s.tier) + " kind=" + (if s.private then "private" else "public")
            + Labelled(s.title) + Labelled(s.place) + Labelled(s.citation) + Labelled(s.court) + Labelled(s.date)
  {
    hide Join, Labels, Decimal, Labelled;
    var kind := if s.private then "private" else "public";
    var first := Bracket(s.marker) + " tier=" + Decimal(s.tier) + " kind=" + kind;
    assert first == "[" + s.marker + "] tier=" + Decimal(s.tier) + " kind=" + kind;
    assert [s.title, s.place, s.citation, s.court, s.date] == [s.title] + [s.place, s.citation, s.court, s.date];
    LabelsJoin(first, s.title, [s.place, s.citation, s.court, s.date]);
    var f2 := first + Labelled(s.title);
    assert [s.place, s.citation, s.court, s.date] == [s.place] + [s.citation, s.court, s.date];
    LabelsJoin(f2, s.place, [s.citation, s.court, s.date]);
    var f3 := f2 + Labelled(s.place);
    assert [s.citation, s.court, s.date] == [s.citation] + [s.court, s.date];
    LabelsJoin(f3, s.citation, [s.court, s.date]);
    var f4 := f3 + Labelled(s.citation);
    assert [s.court, s.date] == [s.court] + [s.date] && [s.date] == [s.date] + [];
    LabelsJoin(f4, s.court, [s.date]);
    LabelsJoin(f4 + Labelled(s.court), s.date, []);
    NoLabels(f4 + Labelled(s.court) + Labelled(s.date));
  }

  lemma NoLabels(first: string)
    ensures Join(" | ", [first] + Labels([])) == first
  {
    assert [first] + Labels([]) == [first];
  }

  /** Three lines for every span, header, excerpt and rule. */
  lemma {:induction false} SpanLinesAre(spans: seq<EvidenceSpan>, k: nat)
    requires k < |spans|
    ensures var ls := SpanLines(spans);
            && |ls| == 3 * |spans|
            && ls[3 * k] == SpanHeader(spans[k]) && ls[3 * k + 1] == Strip(spans[k].excerpt) && ls[3 * k + 2] == "---"
  {
    hide SpanHeader, Strip;
    var n := |spans| - 1;
    SpanLineCount(spans[..n]);
    if k < n { SpanLinesAre(spans[..n], k); }
  }

  lemma {:induction false} SpanLineCount(spans: seq<EvidenceSpan>)
    ensures |SpanLines(spans)| == 3 * |spans|
  {
    if spans != [] { SpanLineCount(spans[..|spans| - 1]); }
  }

  lemma {:induction false} ConflictLinesAre(conflicts: seq<Conflict>, k: nat)
    requires k < |conflicts|
    ensures var ls, c := ConflictLines(conflicts), conflicts[k];
            |ls| == |conflicts| && ls[k] == "- " + c.description + "  (markers: " + Join(", ", c.markers) + ")"
  {
    var n := |conflicts| - 1;
    ConflictLineCount(conflicts[..n]);
    if k < n { ConflictLinesAre(conflicts[..n], k); }
  }

  lemma {:induction false} ConflictLineCount(conflicts: seq<Conflict>)
    ensures |ConflictLines(conflicts)| == |conflicts|
  {
    if conflicts != [] { ConflictLineCount(conflicts[..|conflicts| - 1]); }
  }

  /** The lines of a formatted pack: three for every span, and behind a title one for every conflict. */
  lemma PackLinesAre(pack: EvidencePack)
    ensures var ls, n := PackLines(pack), 3 * |pack.spans|;
            && |ls| == n + (if pack.conflicts == [] then 0 else 1 + |pack.conflicts|)
            && (forall k | 0 <= k < |pack.spans| ::
                  ls[3 * k] == SpanHeader(pack.spans[k]) && ls[3 * k + 1] == Strip(pack.spans[k].excerpt)
                  && ls[3 * k + 2] == "---")
            && (pack.conflicts != [] ==> ls[n] == "Conflicts:")
            && (forall k | 0 <= k < |pack.conflicts| ::
                  ls[n + 1 + k] == "- " + pack.conflicts[k].description + "  (markers: "
                                   + Join(", ", pack.conflicts[k].markers) + ")")
  {
    hide SpanHeader, Strip, Join, SpanLines, ConflictLines;
    SpanLineCount(pack.spans);
    ConflictLineCount(pack.conflicts);
    forall k | 0 <= k < |pack.spans|
      ensures SpanLines(pack.spans)[3 * k] == SpanHeader(pack.spans[k])
        && SpanLines(pack.spans)[3 * k + 1] == Strip(pack.spans[k].excerpt) && SpanLines(pack.spans)[3 * k + 2] == "---"
    {
      SpanLinesAre(pack.spans, k);
    }
    forall k | 0 <= k < |pack.conflicts|
      ensures ConflictLines(pack.conflicts)[k] ==
              "- " + pack.conflicts[k].description + "  (markers: " + Join(", ", pack.conflicts[k].markers) + ")"
    {
      ConflictLinesAre(pack.conflicts, k);
    }
  }

  lemma {:induction false} SpanHeaderListed(spans: seq<EvidenceSpan>, s: EvidenceSpan)
    requires s in spans
    ensures SpanHeader(s) in SpanLines(spans)
  {
    hide SpanHeader, Strip;
    var n := |spans| - 1;
    if s != spans[n] {
      assert spans == spans[..n] + [spans[n]];
      SpanHeaderListed(spans[..n], s);
    }
  }

  /** The formatted pack shows the marker of every span, whatever the excerpts contain. */
  lemma PackShowsMarkers(pack: EvidencePack, s: EvidenceSpan)
    requires s in pack.spans && IsLabel(s.marker)
    ensures s.marker in MarkersOf(Join("\n", PackLines(pack)))
  {
    hide Join, SpanHeader, IsLabel, Scan, SpanLines;
    SpanHeaderListed(pack.spans, s);
    HeaderShowsMarker(s);
    assert SpanHeader(s) in PackLines(pack);
    JoinedLabels(PackLines(pack));
    assert s.marker in LabelSet(Join("\n", PackLines(pack)));
  }

  // ---------------------------------------------------------------------------
  // The fallback provider
  // ---------------------------------------------------------------------------

  /** Each element where it first appears. */
  function Distinct(ms: seq<string>): seq<string> {
    if ms == [] then []
    else
      var n := |ms| - 1;
      Distinct(ms[..n]) + (if ms[n] in ms[..n] then [] else [ms[n]])
  }

  lemma {:induction false} DistinctAre(ms: seq<string>)
    ensures forall m :: m in Distinct(ms) <==> m in ms
  {
    if ms != [] {
      var n := |ms| - 1;
      DistinctAre(ms[..n]);
      assert ms == ms[..n] + [ms[n]];
    }
  }

  method MarkersIn(packText: string) returns (out: seq<string>)
    ensures out == Distinct(MarkersOf(packText))
  {
    hide MarkersOf;
    var found := FindMarkers(packText);
    out := [];
    var seen: set<string> := {};
    for k := 0 to |found|
      invariant out == Distinct(found[..k])
      invariant forall m :: m in seen <==> m in found[..k]
    {
      assert found[..k + 1][..k] == found[..k];
      assert found[..k + 1] == found[..k] + [found[k]];
      if found[k] in seen { continue; }
      seen := seen + {found[k]};
      out := out + [found[k]];
    }
    assert found[..|found|] == found;
  }

  function Brackets(ms: seq<string>): seq<string> {
    if ms == [] then [] else [Bracket(ms[0])] + Brackets(ms[1..])
  }

  function Excerpts(ms: seq<string>): seq<string> {
    if ms == [] then [] else [Bracket(ms[0]) + " cited excerpt \U{2014} see pack."] + Excerpts(ms[1..])
  }

  const OPENING := "The retrieved authorities"
  const CLAIM1 := "bear on the question asked; "
  const CLAIM2 := "the excerpts below are reproduced "
  const CLAIM3 := "verbatim, with the binding statute "
  const CLAIM4 := "text taking precedence over "
  const CLAIM5 := "commentary."
  const CLAIM := CLAIM1 + (CLAIM2 + (CLAIM3 + (CLAIM4 + CLAIM5)))

  /** The one paragraph of the fallback answer; every marker is cited in it twice. */
  function StubClaim(ms: seq<string>): string {
    OPENING + [' '] + (Join(", ", Brackets(ms)) + [' '] + (CLAIM + [' '] + Join(" ", Brackets(ms))))
  }

  function StubLines(ms: seq<string>): seq<string> {
    ["Answer: " + StubClaim(ms)]
    + (["Legal basis:"] + (Bullets(Excerpts(ms)) + (["Confidence: LOW"] + ["Insufficient evidence: NO"])))
  }

  const STUB_REFUSAL :=
    "Answer: Insufficient evidence was retrieved to answer the question. [NO_CITATIONS]\n"
    + "Legal basis:\nConfidence: LOW\nInsufficient evidence: YES\n"

  function StubText(packText: string): string {
    var ms := Distinct(MarkersOf(packText));
    if ms == [] then STUB_REFUSAL else Join("\n", StubLines(ms))
  }

  lemma {:induction false} ExcerptsAre(ms: seq<string>, k: nat)
    requires k < |ms|
    ensures |Excerpts(ms)| == |Brackets(ms)| == |ms| && Brackets(ms)[k] == "[" + ms[k] + "]"
    ensures Excerpts(ms)[k] == "[" + ms[k] + "] cited excerpt \U{2014} see pack."
  {
    if k > 0 {
      ExcerptsAre(ms[1..], k - 1);
    } else {
      ListLengths(ms);
    }
  }

  lemma {:induction false} ListLengths(ms: seq<string>)
    ensures |Excerpts(ms)| == |Brackets(ms)| == |ms|
  {
    if ms != [] { ListLengths(ms[1..]); }
  }

  /** The claim of the fallback answer, in full. */
  lemma StubClaims(ms: seq<string>)
    ensures StubClaim(ms) ==
            "The retrieved authorities " + Join(", ", Brackets(ms))
            + (" "
               + ("bear on the question asked; " + ("the excerpts below are reproduced "
                  + ("verbatim, with the binding statute " + ("text taking precedence over " + "commentary."))))
               + " ")
            + Join(" ", Brackets(ms))
  {
    ClaimWords();
    var a, b := Join(", ", Brackets(ms)), Join(" ", Brackets(ms));
    hide OPENING, CLAIM, Join, Brackets;
    Around(OPENING, a, CLAIM, b);
  }

  lemma Around(o: string, a: string, c: string, b: string)
    ensures o + [' '] + (a + [' '] + (c + [' '] + b)) == (o + " ") + a + (" " + c + " ") + b
  {
  }

  lemma ClaimWords()
    ensures OPENING + " " == "The retrieved authorities "
    ensures CLAIM == "bear on the question asked; " + ("the excerpts below are reproduced "
                     + ("verbatim, with the binding statute " + ("text taking precedence over " + "commentary.")))
  {
  }

  lemma {:induction false} ExcerptsSnoc(ms: seq<string>, m: string)
    ensures Excerpts(ms + [m]) == Excerpts(ms) + [Bracket(m) + " cited excerpt \U{2014} see pack."]
  {
    if ms == [] {
      assert [m][1..] == [];
    } else {
      assert (ms + [m])[1..] == ms[1..] + [m] && (ms + [m])[0] == ms[0];
      ExcerptsSnoc(ms[1..], m);
    }
  }

  /** Cites every marker of the evidence pack text, in the layout the enforcer reads. */
  method StubComplete(packText: string) returns (text: string)
    ensures text == StubText(packText)
  {
    hide MarkersOf, Join, StubClaim, STUB_REFUSAL, Brackets;
    var ms := MarkersIn(packText);
    if ms == [] { return STUB_REFUSAL; }
    var lines := ["Answer: " + StubClaim(ms)];
    lines := lines + ["Legal basis:"];
    for k := 0 to |ms|
      invariant lines == ["Answer: " + StubClaim(ms)] + (["Legal basis:"] + Bullets(Excerpts(ms[..k])))
    {
      assert ms[..k + 1] == ms[..k] + [ms[k]];
      ExcerptsSnoc(ms[..k], ms[k]);
      BulletsSnoc(Excerpts(ms[..k]), Bracket(ms[k]) + " cited excerpt \U{2014} see pack.");
      lines := lines + ["- " + (Bracket(ms[k]) + " cited excerpt \U{2014} see pack.")];
    }
    assert ms[..|ms|] == ms;
    lines := lines + ["Confidence: LOW"];
    lines := lines + ["Insufficient evidence: NO"];
    assert lines == StubLines(ms);
    text := Join("\n", lines);
  }

  // ---------------------------------------------------------------------------
  // The fallback answer passes the enforcer
  // ---------------------------------------------------------------------------

  ghost predicate AllLabels(ms: seq<string>) {
    forall m | m in ms :: IsLabel(m)
  }

  lemma LabelOneLine(m: string)
    requires IsLabel(m)
    ensures OneLine(Bracket(m))
  {
    hide IsLabel, IsDigit, IsBreak;
    LabelCharacters(m);
    forall i | 0 <= i < |Bracket(m)| ensures !IsBreak(Bracket(m)[i]) {
      var c := Bracket(m)[i];
      assert c in Bracket(m);
      if IsDigit(c) { DigitsAreNotSpaces(c); } else { MarkerPunctuation(c); }
    }
  }

  ghost predicate AllSeparate(sep: string) {
    forall c | c in sep :: Separates(c)
  }

  lemma {:induction false} ScanAcrossText(a: string, sep: string, b: string)
    requires sep != [] && AllSeparate(sep)
    ensures MarkersOf(a + sep + b) == MarkersOf(a) + MarkersOf(b)
    ensures Wedged(IDLE, a + sep + b) == Wedged(IDLE, a) + Wedged(IDLE, b)
    decreases |sep|
  {
    hide Separates, MarkersOf, Wedged;
    assert sep[0] in sep && forall c | c in sep[1..] :: c in sep;
    if |sep| == 1 {
      assert sep == [sep[0]];
      ScanAcross(a, sep[0], b);
    } else {
      ScanAcross(a, sep[0], sep[1..] + b);
      assert a + sep + b == a + [sep[0]] + (sep[1..] + b);
      ScanAcrossText([], sep[1..], b);
      assert [] + sep[1..] + b == sep[1..] + b;
      EmptyScan();
    }
  }

  lemma EmptyScan()
    ensures MarkersOf([]) == [] && Wedged(IDLE, []) == {}
  {
  }

  /** Markers listed with separators between them: just those markers, none wedged. */
  lemma {:induction false} ListedMarkers(ms: seq<string>, sep: string)
    requires AllLabels(ms) && sep != [] && AllSeparate(sep)
    ensures MarkersOf(Join(sep, Brackets(ms))) == ms
    ensures Wedged(IDLE, Join(sep, Brackets(ms))) == {}
  {
    hide IsLabel, MarkersOf, Wedged, AllSeparate;
    if ms == [] {
      EmptyScan();
    } else {
      assert ms[0] in ms && forall m | m in ms[1..] :: m in ms;
      OneBracket(ms[0]);
      if |ms| == 1 {
        assert Brackets(ms) == [Bracket(ms[0])] by { assert ms[1..] == []; }
        assert ms == [ms[0]];
      } else {
        ListedMarkers(ms[1..], sep);
        assert Brackets(ms)[1..] == Brackets(ms[1..]) && Brackets(ms[1..]) != [];
        ScanAcrossText(Bracket(ms[0]), sep, Join(sep, Brackets(ms[1..])));
        assert ms == [ms[0]] + ms[1..];
      }
    }
  }

  lemma OneBracket(m: string)
    requires IsLabel(m)
    ensures MarkersOf(Bracket(m)) == [m] && Wedged(IDLE, Bracket(m)) == {}
  {
    ReadMarker(IDLE, m);
  }

  lemma {:induction false} ListedOneLine(ms: seq<string>, sep: string)
    requires AllLabels(ms) && OneLine(sep)
    ensures OneLine(Join(sep, Brackets(ms)))
  {
    hide IsLabel, OneLine;
    if ms == [] {
      ConstantsOneLine();
    } else {
      assert ms[0] in ms && forall m | m in ms[1..] :: m in ms;
      LabelOneLine(ms[0]);
      if |ms| == 1 {
        assert Brackets(ms) == [Bracket(ms[0])] by { assert ms[1..] == []; }
      } else {
        ListedOneLine(ms[1..], sep);
        assert Brackets(ms)[1..] == Brackets(ms[1..]) && Brackets(ms[1..]) != [];
        OneLineConcat(Bracket(ms[0]), sep);
        OneLineConcat(Bracket(ms[0]) + sep, Join(sep, Brackets(ms[1..])));
      }
    }
  }

  lemma PlainPiece(s: string)
    requires '[' !in s
    ensures MarkersOf(s) == [] && Wedged(IDLE, s) == {}
  {
    NothingOpens(s);
    NothingWedged(s);
  }

  lemma PlainConcat(a: string, b: string)
    requires '[' !in a && '[' !in b && OneLine(a) && OneLine(b)
    ensures '[' !in a + b && OneLine(a + b)
  {
    OneLineConcat(a, b);
  }

  lemma ClaimIsPlain()
    ensures '[' !in OPENING && OneLine(OPENING) && '[' !in CLAIM && OneLine(CLAIM)
  {
    PlainPieces1();
    PlainPieces2();
    PlainPieces3();
    PlainPieces4();
    hide OPENING, CLAIM1, CLAIM2, CLAIM3, CLAIM4, CLAIM5, OneLine;
    PlainConcat(CLAIM4, CLAIM5);
    PlainConcat(CLAIM3, CLAIM4 + CLAIM5);
    PlainConcat(CLAIM2, CLAIM3 + (CLAIM4 + CLAIM5));
    PlainConcat(CLAIM1, CLAIM2 + (CLAIM3 + (CLAIM4 + CLAIM5)));
  }

  lemma PlainPieces1()
    ensures '[' !in OPENING && OneLine(OPENING) && '[' !in CLAIM1 && OneLine(CLAIM1)
  {
  }

  lemma PlainPieces2()
    ensures '[' !in CLAIM2 && OneLine(CLAIM2)
  {
  }

  lemma PlainPieces3()
    ensures '[' !in CLAIM3 && OneLine(CLAIM3)
  {
  }

  lemma PlainPieces4()
    ensures '[' !in CLAIM4 && OneLine(CLAIM4) && '[' !in CLAIM5 && OneLine(CLAIM5)
  {
  }

  lemma CommaSeparates()
    ensures AllSeparate(", ") && AllSeparate(" ") && Separates(' ') && Separates('\n')
    ensures OneLine(", ") && OneLine(" ") && OneLine([' '])
  {
  }

  /** The claim cites each marker twice, splices nothing, and stays on one line. */
  lemma ClaimMarkers(ms: seq<string>)
    requires AllLabels(ms)
    ensures MarkersOf(StubClaim(ms)) == ms + ms && Wedged(IDLE, StubClaim(ms)) == {} && OneLine(StubClaim(ms))
  {
    hide IsLabel, MarkersOf, Wedged, OneLine, Separates, OPENING, CLAIM, Join, AllSeparate;
    ClaimIsPlain();
    CommaSeparates();
    PlainPiece(OPENING);
    PlainPiece(CLAIM);
    ListedMarkers(ms, ", ");
    ListedMarkers(ms, " ");
    ListedOneLine(ms, ", ");
    ListedOneLine(ms, " ");
    var x, y := Join(", ", Brackets(ms)), Join(" ", Brackets(ms));
    ScanAcross(CLAIM, ' ', y);
    ScanAcross(x, ' ', CLAIM + [' '] + y);
    ScanAcross(OPENING, ' ', x + [' '] + (CLAIM + [' '] + y));
    OneLineConcat(CLAIM, [' ']);
    OneLineConcat(CLAIM + [' '], y);
    OneLineConcat(x, [' ']);
    OneLineConcat(x + [' '], CLAIM + [' '] + y);
    OneLineConcat(OPENING, [' ']);
    OneLineConcat(OPENING + [' '], x + [' '] + (CLAIM + [' '] + y));
  }

  const CITED_EXCERPT := " cited excerpt \U{2014} see pack."

  lemma ExcerptIsPlain()
    ensures '[' !in CITED_EXCERPT && OneLine(CITED_EXCERPT) && CITED_EXCERPT != [] && CITED_EXCERPT[0] == ' '
  {
  }

  lemma ExcerptLine(m: string)
    requires IsLabel(m)
    ensures var s := "- " + (Bracket(m) + CITED_EXCERPT);
            MarkersOf(s) == [m] && Wedged(IDLE, s) == {} && OneLine(s)
  {
    hide IsLabel, MarkersOf, Wedged, OneLine, Separates, CITED_EXCERPT;
    CommaSeparates();
    ExcerptIsPlain();
    ConstantsOneLine();
    OneBracket(m);
    LabelOneLine(m);
    PlainPiece(CITED_EXCERPT);
    PlainPiece("-");
    var tail := CITED_EXCERPT[1..];
    assert CITED_EXCERPT == [' '] + tail;
    PlainPiece(tail) by { assert forall c | c in tail :: c in CITED_EXCERPT; }
    ScanAcross(Bracket(m), ' ', tail);
    assert Bracket(m) + CITED_EXCERPT == Bracket(m) + [' '] + tail;
    ScanAcross("-", ' ', Bracket(m) + CITED_EXCERPT);
    assert "- " + (Bracket(m) + CITED_EXCERPT) == "-" + [' '] + (Bracket(m) + CITED_EXCERPT);
    OneLineConcat(Bracket(m), CITED_EXCERPT);
    OneLineConcat("- ", Bracket(m) + CITED_EXCERPT);
  }

  lemma {:induction false} ExcerptLines(ms: seq<string>)
    requires AllLabels(ms)
    ensures NoneWedged(Bullets(Excerpts(ms))) && AllOneLine(Bullets(Excerpts(ms)))
  {
    hide IsLabel, MarkersOf, Wedged, OneLine;
    if ms != [] {
      assert ms[0] in ms && forall m | m in ms[1..] :: m in ms;
      ExcerptLine(ms[0]);
      ExcerptLines(ms[1..]);
      assert Excerpts(ms)[1..] == Excerpts(ms[1..]);
    }
  }

  ghost predicate NoneWedged(parts: seq<string>) {
    forall p | p in parts :: Wedged(IDLE, p) == {}
  }

  lemma NoneWedgedConcat(a: seq<string>, b: seq<string>)
    requires NoneWedged(a) && NoneWedged(b)
    ensures NoneWedged(a + b)
  {
    hide Wedged;
  }

  lemma LastTwoLines()
    ensures "Confidence: LOW" == "Confidence: " + Shout(Low)
            && "Insufficient evidence: NO" == "Insufficient evidence: " + YesNo(false)
    ensures OneLine("Confidence: LOW") && OneLine("Insufficient evidence: NO")
    ensures '[' !in "Confidence: LOW" && '[' !in "Insufficient evidence: NO"
  {
  }

  lemma FirstLine(ms: seq<string>)
    requires AllLabels(ms)
    ensures var s := "Answer: " + StubClaim(ms);
            OneLine(s) && Wedged(IDLE, s) == {}
  {
    hide IsLabel, MarkersOf, Wedged, OneLine, Separates, StubClaim;
    ClaimMarkers(ms);
    CommaSeparates();
    PlainPiece("Answer:");
    ConstantsOneLine();
    ScanAcross("Answer:", ' ', StubClaim(ms));
    assert "Answer: " + StubClaim(ms) == "Answer:" + [' '] + StubClaim(ms);
    OneLineConcat("Answer:", [' ']);
    OneLineConcat("Answer:" + [' '], StubClaim(ms));
  }

  /** The fallback text splices nothing, and splits into the lines it was made of. */
  lemma StubSplits(ms: seq<string>)
    requires AllLabels(ms)
    ensures SplitLines(Join("\n", StubLines(ms))) == StubLines(ms)
    ensures Wedged(IDLE, Join("\n", StubLines(ms))) == {}
  {
    hide IsLabel, MarkersOf, Wedged, OneLine, Separates, StubClaim, Join, SplitLines, Bullets, Excerpts;
    FirstLine(ms);
    ExcerptLines(ms);
    LastTwoLines();
    ConstantsOneLine();
    PlainPiece("Legal basis:");
    PlainPiece("Confidence: LOW");
    PlainPiece("Insufficient evidence: NO");
    var first, bs := ["Answer: " + StubClaim(ms)], Bullets(Excerpts(ms));
    var conf, suff := ["Confidence: LOW"], ["Insufficient evidence: NO"];
    AllOneLineConcat(conf, suff);
    AllOneLineConcat(bs, conf + suff);
    AllOneLineConcat(["Legal basis:"], bs + (conf + suff));
    AllOneLineConcat(first, ["Legal basis:"] + (bs + (conf + suff)));
    NoneWedgedConcat(conf, suff);
    NoneWedgedConcat(bs, conf + suff);
    NoneWedgedConcat(["Legal basis:"], bs + (conf + suff));
    NoneWedgedConcat(first, ["Legal basis:"] + (bs + (conf + suff)));
    EndsInLast(first, ["Legal basis:"] + (bs + (conf + suff)));
    EndsInLast(["Legal basis:"], bs + (conf + suff));
    EndsInLast(bs, conf + suff);
    EndsInLast(conf, suff);
    SplitJoined(StubLines(ms));
    CommaSeparates();
    assert ['\n'] == "\n";
    JoinMarkers('\n', StubLines(ms));
    AllWedgedWithin(StubLines(ms), {});
  }

  lemma LineAnswer(ms: seq<string>)
    requires AllLabels(ms) && ms != []
    ensures var line := "Answer: " + StubClaim(ms);
            && HeaderOf(line) == Some(Answer)
            && LabelSet(Remainder(line, Answer)) == (set m | m in ms)
  {
    hide IsLabel, Scan, Separates, StubClaim, HeaderOf, Remainder, IsSpace;
    ClaimMarkers(ms);
    ClaimEnds(ms);
    AnswerHeader(StubClaim(ms));
    var rest := " " + StubClaim(ms);
    CommaSeparates();
    ScanAcross([], ' ', StubClaim(ms));
    assert rest == [] + [' '] + StubClaim(ms);
    EmptyScan();
    assert [] + MarkersOf(StubClaim(ms)) == ms + ms;
    StripLabels(rest);
  }

  lemma AnswerHeader(claim: string)
    requires claim != [] && !IsSpace(claim[|claim| - 1])
    ensures HeaderOf("Answer: " + claim) == Some(Answer)
    ensures Remainder("Answer: " + claim, Answer) == Strip(" " + claim)
  {
    var line := "Answer: " + claim;
    assert !IsSpace('A');
    assert line[0] == 'A' && line[|line| - 1] == claim[|claim| - 1];
    StripKeepsStripped(line);
    assert StartsFolded("Answer:", "answer:");
    FoldsPrefix(line, "Answer:", "answer:");
    assert line[7..] == " " + claim;
  }

  lemma ClaimEnds(ms: seq<string>)
    requires ms != []
    ensures StubClaim(ms) != [] && !IsSpace(StubClaim(ms)[|StubClaim(ms)| - 1])
  {
    hide OPENING, CLAIM, IsSpace;
    JoinEnds(ms);
    assert !IsSpace(']') by { MarkerPunctuation(']'); }
  }

  lemma {:induction false} JoinEnds(ms: seq<string>)
    requires ms != []
    ensures var j := Join(" ", Brackets(ms)); j != [] && j[|j| - 1] == ']'
  {
    if |ms| == 1 {
      assert Brackets(ms) == [Bracket(ms[0])] by { assert ms[1..] == []; }
    } else {
      JoinEnds(ms[1..]);
      assert Brackets(ms)[1..] == Brackets(ms[1..]) && Brackets(ms[1..]) != [];
    }
  }

  /** Two sections of the fallback text: the claim, and the word that says the evidence sufficed. */
  lemma StubSections(ms: seq<string>)
    requires AllLabels(ms) && ms != []
    ensures var text := Join("\n", StubLines(ms));
            && LabelSet(SectionText(text, Answer)) == (set m | m in ms)
            && SectionText(text, Insufficient) == Strip(Join("\n", [YesNo(false)]))
            && SectionText(text, Confidence) == Strip(Join("\n", [Shout(Low)]))
  {
    hide IsLabel, Scan, OneLine, StubClaim, Join, SplitLines, Bullets, Excerpts, Strip, HeaderOf, Remainder, Bucket,
      Current, LabelSet, YesNo, Shout;
    StubSplits(ms);
    var first := "Answer: " + StubClaim(ms);
    StubBuckets(ms, Answer);
    StubBuckets(ms, Confidence);
    StubBuckets(ms, Insufficient);
    LineAnswer(ms);
    var claim := Remainder(first, Answer);
    StripLabels(Join("\n", [claim]));
    JoinedLabels([claim]);
    CitedOne(claim);
  }

  lemma StubBuckets(ms: seq<string>, k: Section)
    requires AllLabels(ms) && ms != []
    requires k in {Answer, Confidence, Insufficient}
    ensures Bucket(StubLines(ms), Answer, k) ==
            match k
            case Answer => [Remainder("Answer: " + StubClaim(ms), Answer)]
            case Confidence => [Shout(Low)]
            case _ => [YesNo(false)]
  {
    hide IsLabel, Scan, OneLine, StubClaim, Bullets, Excerpts, HeaderOf, Remainder, Bucket, Current, YesNo, Shout,
      LabelSet;
    var first, bs := "Answer: " + StubClaim(ms), Bullets(Excerpts(ms));
    var conf, suff := "Confidence: LOW", "Insufficient evidence: NO";
    LastTwoLines();
    LineAnswer(ms);
    ClaimIsThere(ms);
    TitleLegal();
    BulletsAreNoHeaders(Excerpts(ms));
    PlainLines(bs, LegalBasis, k);
    LineConfidence(Low);
    LineInsufficient(false);
    WordsAreThere();
    TitleAdds(first, Answer, Answer, k);
    TitleAdds("Legal basis:", LegalBasis, Answer, k);
    TitleAdds(conf, Confidence, LegalBasis, k);
    TitleAdds(suff, Insufficient, Confidence, k);
    BucketConcat([conf], [suff], LegalBasis, k);
    BucketConcat(bs, [conf] + [suff], LegalBasis, k);
    BucketConcat(["Legal basis:"], bs + ([conf] + [suff]), Answer, k);
    BucketConcat([first], ["Legal basis:"] + (bs + ([conf] + [suff])), Answer, k);
  }

  lemma WordsAreThere()
    ensures Shout(Low) != [] && YesNo(false) != []
  {
  }

  lemma ClaimIsThere(ms: seq<string>)
    requires AllLabels(ms) && ms != []
    ensures Remainder("Answer: " + StubClaim(ms), Answer) != []
  {
    hide IsLabel, Remainder, StubClaim, Scan;
    LineAnswer(ms);
    var r := Remainder("Answer: " + StubClaim(ms), Answer);
    NoTextNoMarkers(r);
    assert ms[0] in LabelSet(r);
  }

  /**
   * The fallback never refuses: if the evidence pack has a span with a proper marker, the enforced fallback answer
   * is there, counts as sufficient, and shows exactly the proper markers of the evidence pack.
   */
  lemma FallbackNeverRefuses(pack: EvidencePack, ord: Order, s: EvidenceSpan)
    requires IsOrder(ord) && s in pack.spans && IsLabel(s.marker)
    ensures var clean := EnforcedOf(StubText(Join("\n", PackLines(pack))), PackMarkers(pack.spans), ord);
            && clean.answer != [] && !clean.insufficient && clean.confidence == Low
            && s.marker in clean.used
            && LabelSet(Rendered(clean)) == (set m | m in PackMarkers(pack.spans) && IsLabel(m))
  {
    hide Scan, Join, IsLabel, LabelSet, IsOrder, StubLines, Strip, Rendered, Cited, SectionText, KeptSentences,
      KeptBullets, ParseConfidence, ParseInsufficient, PackLines;
    var packText, allowed := Join("\n", PackLines(pack)), PackMarkers(pack.spans);
    var ms := Distinct(MarkersOf(packText));
    DistinctAre(MarkersOf(packText));
    PackShowsMarkers(pack, s);
    assert s.marker in ms;
    ScanLabels(IDLE, packText);
    var text := Join("\n", StubLines(ms));
    StubSections(ms);
    StubSplits(ms);
    RenderedIsGrounded(text, allowed, ord);
    LevelRecovered(Low);
    SufficiencyRecovered(false);
    var clean := EnforcedOf(text, allowed, ord);
    assert s.marker in LabelSet(clean.answer);
    NoTextNoMarkers(clean.answer);
    RenderedLabels(clean);
    RenderedAreLabels(clean);
    forall m | m in allowed && IsLabel(m) ensures m in LabelSet(Rendered(clean)) {
      var s' :| s' in pack.spans && s'.marker == m;
      PackShowsMarkers(pack, s');
    }
  }

  lemma RenderedAreLabels(clean: EnforcedAnswer)
    ensures forall m | m in LabelSet(Rendered(clean)) :: IsLabel(m)
  {
    ScanLabels(IDLE, Rendered(clean));
    hide Scan, Rendered, IsLabel;
  }

  // ---------------------------------------------------------------------------
  // Citations
  // ---------------------------------------------------------------------------

  datatype AnswerCitation = AnswerCitation(
    marker: string, kind: string, title: Option<string>, authority: Option<string>, court: Option<string>,
    date: Option<string>, place: Option<string>, excerpt: string, sourceId: string, sourceSpanId: string,
    fileId: string, nodeId: string, tier: nat, score: real)

  predicate MentionsOne(name: string, words: seq<string>) {
    exists w | w in words :: FoldsSomewhere(name, 0, w)
  }

  /** The kind of source, read off the node type's name. */
  function CitationType(nodeType: string, private: bool): string {
    if private then "private_document"
    else if MentionsOne(nodeType, ["act", "section", "chapter", "proviso", "schedule"]) then "statute"
    else if MentionsOne(nodeType, ["notification"]) then "notification"
    else if MentionsOne(nodeType, ["regulation"]) then "regulation"
    else if MentionsOne(nodeType, ["rule"]) then "rule"
    else if MentionsOne(nodeType, ["summary", "extracted"]) then "summary"
    else "judgment"
  }

  function AuthorityFor(s: EvidenceSpan): Option<string> {
    if s.court.Some? && s.court.value != [] then s.court
    else if !s.private && s.tier == 1 then Some("Government of India")
    else None
  }

  function CitationOf(marker: string, s: EvidenceSpan): AnswerCitation {
    AnswerCitation(marker, CitationType(s.nodeType, s.private), s.title, AuthorityFor(s), s.court, s.date, s.place,
      s.excerpt,
                   s.sourceEpisodeId, s.sourceSpanId, s.fileId, s.nodeId, s.tier, s.score)
  }

  /** The span a marker stands for: the last one, if a marker is used twice. */
  function SpanFor(spans: seq<EvidenceSpan>, marker: string): (r: Option<EvidenceSpan>)
    ensures r.Some? <==> exists s :: s in spans && s.marker == marker
    ensures r.Some? ==> r.value in spans && r.value.marker == marker
  {
    if spans == [] then None
    else if spans[|spans| - 1].marker == marker then Some(spans[|spans| - 1])
    else SpanFor(spans[..|spans| - 1], marker)
  }

  /** The number in a label, as `int()` reads it. */
  function NumberOf(digits: string): nat {
    if digits == [] then 0
    else NumberOf(digits[..|digits| - 1]) * 10 + (if IsDigit(digits[|digits| - 1])
      then DigitValue(digits[|digits| - 1]) else 0)
  }

  function LabelNumber(m: string): nat {
    if m == [] then 0 else NumberOf(m[1..])
  }

  function ByNumber(): (string, string) -> bool {
    (a: string, b: string) => LabelNumber(a) <= LabelNumber(b)
  }

  /** The citations of the listed markers whose spans are of the given kind, in the order listed. */
  function CitationsOf(ms: seq<string>, spans: seq<EvidenceSpan>, private: bool): seq<AnswerCitation> {
    if ms == [] then []
    else
      var n := |ms| - 1;
      var s := SpanFor(spans, ms[n]);
      CitationsOf(ms[..n], spans, private)
      + (if s.Some? && s.value.private == private then [CitationOf(ms[n], s.value)] else [])
  }

  function SortedMarkers(text: string, ord: Order): seq<string> {
    Sort(ord(text, LabelSet(text)), ByNumber())
  }

  /** One citation for each marker of the text that the evidence pack can resolve, private ones apart. */
  method ResolveCitations(text: string, spans: seq<EvidenceSpan>, ord: Order)
    returns (public: seq<AnswerCitation>, private: seq<AnswerCitation>)
    ensures public == CitationsOf(SortedMarkers(text, ord), spans, false)
    ensures private == CitationsOf(SortedMarkers(text, ord), spans, true)
  {
    hide Scan, Sort, CitationOf, LabelSet;
    var found := FindMarkers(text);
    LabelsFound(text, found);
    var ms := Sort(ord(text, set m | m in found), ByNumber());
    public, private := [], [];
    for k := 0 to |ms|
      invariant public == CitationsOf(ms[..k], spans, false)
      invariant private == CitationsOf(ms[..k], spans, true)
    {
      assert ms[..k + 1][..k] == ms[..k];
      var s := SpanFor(spans, ms[k]);
      if s.None? { continue; }
      if s.value.private {
        private := private + [CitationOf(ms[k], s.value)];
      } else {
        public := public + [CitationOf(ms[k], s.value)];
      }
    }
    assert ms[..|ms|] == ms;
  }

  ghost predicate Ascending(cs: seq<AnswerCitation>) {
    forall i, j | 0 <= i < j < |cs| :: cs[i].marker != cs[j].marker
      && LabelNumber(cs[i].marker) <= LabelNumber(cs[j].marker)
  }

  /** `cs` has exactly one citation for each marker whose span is of the given kind, in ascending order. */
  ghost predicate Resolves(cs: seq<AnswerCitation>, ms: set<string>, spans: seq<EvidenceSpan>, private: bool) {
    && Ascending(cs)
    && (forall c | c in cs :: c.marker in ms && SpanFor(spans, c.marker).Some?
          && SpanFor(spans, c.marker).value.private == private
            && c == CitationOf(c.marker, SpanFor(spans, c.marker).value))
    && (forall m | m in ms && SpanFor(spans, m).Some? && SpanFor(spans, m).value.private == private ::
          CitationOf(m, SpanFor(spans, m).value) in cs)
  }

  lemma OneMoreCitation(older: seq<AnswerCitation>, seen: set<string>, m: string, spans: seq<EvidenceSpan>,
                        private: bool)
    requires Resolves(older, seen, spans, private)
    requires forall x | x in seen :: x != m && LabelNumber(x) <= LabelNumber(m)
    ensures var s := SpanFor(spans, m);
            Resolves(older + (if s.Some? && s.value.private == private then [CitationOf(m, s.value)] else []),
                     seen + {m}, spans, private)
  {
    hide LabelNumber, CitationType, AuthorityFor, SpanFor;
    var s := SpanFor(spans, m);
    if s.Some? && s.value.private == private {
      var c := CitationOf(m, s.value);
      assert c.marker == m;
      hide CitationOf;
      var all := older + [c];
      forall i, j | 0 <= i < j < |all|
        ensures all[i].marker != all[j].marker && LabelNumber(all[i].marker) <= LabelNumber(all[j].marker)
      {
        assert all[i] in older;
        assert all[i].marker in seen;
      }
      forall x | x in seen + {m} && SpanFor(spans, x).Some? && SpanFor(spans, x).value.private == private
        ensures CitationOf(x, SpanFor(spans, x).value) in all
      {
        if x != m { assert x in seen; }
      }
    }
  }

  ghost predicate RisingMarkers(ms: seq<string>) {
    forall i, j | 0 <= i < j < |ms| :: ms[i] != ms[j] && LabelNumber(ms[i]) <= LabelNumber(ms[j])
  }

  lemma EarlierMarkers(ms: seq<string>, n: nat)
    requires RisingMarkers(ms) && |ms| == n + 1
    ensures RisingMarkers(ms[..n])
    ensures forall x | x in ms[..n] :: x != ms[n] && LabelNumber(x) <= LabelNumber(ms[n])
    ensures (set m | m in ms[..n]) + {ms[n]} == set m | m in ms
  {
    hide LabelNumber;
    assert ms == ms[..n] + [ms[n]];
    forall x | x in ms[..n] ensures x != ms[n] && LabelNumber(x) <= LabelNumber(ms[n]) {
      var i :| 0 <= i < n && ms[i] == x;
    }
  }

  lemma {:induction false} CitationsResolve(ms: seq<string>, spans: seq<EvidenceSpan>, private: bool)
    requires RisingMarkers(ms)
    ensures Resolves(CitationsOf(ms, spans, private), (set m | m in ms), spans, private)
  {
    hide LabelNumber, CitationOf, SpanFor, RisingMarkers;
    if ms != [] {
      var n: nat := |ms| - 1;
      EarlierMarkers(ms, n);
      CitationsResolve(ms[..n], spans, private);
      hide Resolves;
      OneMoreCitation(CitationsOf(ms[..n], spans, private), (set m | m in ms[..n]), ms[n], spans, private);
    }
  }

  lemma SortedMarkersAre(text: string, ord: Order)
    requires IsOrder(ord)
    ensures var ms := SortedMarkers(text, ord);
            (set m | m in ms) == LabelSet(text) && RisingMarkers(ms)
  {
    hide Scan, LabelNumber, LabelSet, Sort;
    var le := ByNumber();
    var listed := ord(text, LabelSet(text));
    assert TotalPreorder(le, listed);
    SortOrdered(listed, le);
    SortElements(listed, le);
    SortPermutes(listed, le);
    var ms := Sort(listed, le);
    NoRepeatsSurvive(listed, ms);
    forall i, j | 0 <= i < j < |ms| ensures ms[i] != ms[j] && LabelNumber(ms[i]) <= LabelNumber(ms[j]) {
      assert le(ms[i], ms[j]);
    }
  }

  lemma NoRepeatsSurvive(a: seq<string>, b: seq<string>)
    requires multiset(a) == multiset(b) && forall i, j | 0 <= i < j < |a| :: a[i] != a[j]
    ensures forall i, j | 0 <= i < j < |b| :: b[i] != b[j]
  {
    forall i, j | 0 <= i < j < |b| ensures b[i] != b[j] {
      if b[i] == b[j] {
        TwiceInMultiset(b, i, j);
        OnceInMultiset(a, b[i]);
      }
    }
  }

  lemma TwiceInMultiset(b: seq<string>, i: nat, j: nat)
    requires i < j < |b| && b[i] == b[j]
    ensures multiset(b)[b[i]] >= 2
  {
    assert b == b[..j] + [b[j]] + b[j + 1..];
    assert b[i] in b[..j] by { assert b[..j][i] == b[i]; }
    assert b[i] in multiset(b[..j]);
  }

  lemma {:induction false} OnceInMultiset(a: seq<string>, x: string)
    requires forall i, j | 0 <= i < j < |a| :: a[i] != a[j]
    ensures multiset(a)[x] <= 1
  {
    if a != [] {
      OnceInMultiset(a[1..], x);
      assert a == [a[0]] + a[1..];
      if x == a[0] {
        assert x !in a[1..];
        assert x !in multiset(a[1..]);
      }
    }
  }

  /**
   * Every marker of the text that the evidence pack can resolve is cited exactly once, in its own bucket, in
   * ascending order.
   */
  lemma CitationsAreExact(text: string, spans: seq<EvidenceSpan>, ord: Order, private: bool)
    requires IsOrder(ord)
    ensures Resolves(CitationsOf(SortedMarkers(text, ord), spans, private), LabelSet(text), spans, private)
  {
    hide LabelSet, SortedMarkers, CitationsOf, Resolves;
    SortedMarkersAre(text, ord);
    CitationsResolve(SortedMarkers(text, ord), spans, private);
  }

  // --- what a citation says, field by field ---------------------------------------

  /** The kind of source by the node type's name; what comes first in this list decides. */
  ghost predicate IsSourceType(kind: string, name: string, private: bool) {
    if private then kind == "private_document"
    else if Mentions(name, "act") || Mentions(name, "section") || Mentions(name, "chapter") || Mentions(name, "proviso")
            || Mentions(name, "schedule") then kind == "statute"
    else if Mentions(name, "notification") then kind == "notification"
    else if Mentions(name, "regulation") then kind == "regulation"
    else if Mentions(name, "rule") then kind == "rule"
    else if Mentions(name, "summary") || Mentions(name, "extracted") then kind == "summary"
    else kind == "judgment"
  }

  /** The court if there is one; a public source of tier 1 has the government for its authority. */
  ghost predicate IsAuthority(authority: Option<string>, s: EvidenceSpan) {
    && (s.court.Some? && s.court.value != "" ==> authority == s.court)
    && (s.court.None? || s.court.value == "" ==>
          authority == if s.tier == 1 && !s.private then Some("Government of India") else None)
  }

  ghost predicate Cites(c: AnswerCitation, s: EvidenceSpan) {
    && c.marker == s.marker && c.title == s.title && c.court == s.court && c.date == s.date && c.place == s.place
    && c.excerpt == s.excerpt && c.sourceId == s.sourceEpisodeId && c.sourceSpanId == s.sourceSpanId
    && c.fileId == s.fileId && c.nodeId == s.nodeId && c.tier == s.tier && c.score == s.score
    && IsSourceType(c.kind, s.nodeType, s.private) && IsAuthority(c.authority, s)
  }

  /** The span the marker stands for: the last one to carry it. */
  ghost predicate StandsFor(spans: seq<EvidenceSpan>, s: EvidenceSpan) {
    exists k | 0 <= k < |spans| :: spans[k] == s && forall j | k < j < |spans| :: spans[j].marker != s.marker
  }

  /** A citation for every marker shown by the text that some span of the kind carries, and no others. */
  ghost predicate CitesAll(cs: seq<AnswerCitation>, text: string, spans: seq<EvidenceSpan>, private: bool) {
    && (forall c | c in cs ::
          Shows(text, c.marker) && exists s :: StandsFor(spans, s) && s.private == private && Cites(c, s))
    && (forall s | StandsFor(spans, s) && s.private == private && Shows(text, s.marker) ::
          exists c :: c in cs && Cites(c, s))
    && (forall i, j | 0 <= i < j < |cs| :: cs[i].marker != cs[j].marker)
  }

  lemma OneMention(name: string, words: seq<string>, w: string)
    requires words == [w] && forall k | 0 <= k < |w| :: !('A' <= w[k] <= 'Z')
    ensures MentionsOne(name, words) <==> Mentions(name, w)
  {
    hide FoldsSomewhere, Mentions;
    MentionIsFound(name, w);
    assert words[0] == w;
  }

  lemma MentionOfTwo(name: string, v: string, w: string)
    requires forall k | 0 <= k < |v| :: !('A' <= v[k] <= 'Z')
    requires forall k | 0 <= k < |w| :: !('A' <= w[k] <= 'Z')
    ensures MentionsOne(name, [v, w]) <==> Mentions(name, v) || Mentions(name, w)
  {
    hide FoldsSomewhere, Mentions;
    MentionIsFound(name, v);
    MentionIsFound(name, w);
    var words := [v, w];
    assert words[0] == v && words[1] == w;
  }

  lemma StatuteMention(name: string)
    ensures MentionsOne(name, ["act", "section", "chapter", "proviso", "schedule"]) <==>
            Mentions(name, "act") || Mentions(name, "section") || Mentions(name, "chapter") || Mentions(name, "proviso")
            || Mentions(name, "schedule")
  {
    hide FoldsSomewhere, Mentions;
    var words := ["act", "section", "chapter", "proviso", "schedule"];
    forall w | w in words ensures FoldsSomewhere(name, 0, w) <==> Mentions(name, w) {
      MentionIsFound(name, w);
    }
    assert words[0] == "act" && words[1] == "section" && words[2] == "chapter" && words[3] == "proviso";
    assert words[4] == "schedule";
  }

  lemma CitationCites(s: EvidenceSpan)
    ensures Cites(CitationOf(s.marker, s), s)
  {
    hide MentionsOne, Mentions;
    var name := s.nodeType;
    StatuteMention(name);
    OneMention(name, ["notification"], "notification");
    OneMention(name, ["regulation"], "regulation");
    OneMention(name, ["rule"], "rule");
    MentionOfTwo(name, "summary", "extracted");
  }

  ghost predicate LastWith(spans: seq<EvidenceSpan>, k: nat, m: string) {
    k < |spans| && spans[k].marker == m && forall j | k < j < |spans| :: spans[j].marker != m
  }

  lemma {:induction false} FoundIsLast(spans: seq<EvidenceSpan>, m: string) returns (k: nat)
    requires SpanFor(spans, m).Some?
    ensures LastWith(spans, k, m) && spans[k] == SpanFor(spans, m).value
  {
    var n := |spans| - 1;
    if spans[n].marker == m {
      k := n;
    } else {
      k := FoundIsLast(spans[..n], m);
    }
  }

  lemma FoundStandsFor(spans: seq<EvidenceSpan>, m: string, s: EvidenceSpan)
    ensures StandsFor(spans, s) && s.marker == m <==> SpanFor(spans, m) == Some(s)
  {
    if StandsFor(spans, s) && s.marker == m {
      var k :| 0 <= k < |spans| && spans[k] == s && forall j | k < j < |spans| :: spans[j].marker != s.marker;
      assert LastWith(spans, k, m) && spans[k] in spans;
      var l := FoundIsLast(spans, m);
      assert k == l;
    }
    if SpanFor(spans, m) == Some(s) {
      var k := FoundIsLast(spans, m);
      assert spans[k] == s;
    }
  }

  /** The citations of a text, told by the spans behind them. */
  lemma ResolvedCitesAll(cs: seq<AnswerCitation>, text: string, spans: seq<EvidenceSpan>, private: bool)
    requires Resolves(cs, LabelSet(text), spans, private)
    ensures CitesAll(cs, text, spans, private)
  {
    hide LabelSet, Shows, CitationOf, SpanFor, StandsFor, Cites, LabelNumber;
    forall m ensures m in LabelSet(text) <==> Shows(text, m) { LabelsAreShown(text, m); }
    forall c | c in cs ensures exists s :: StandsFor(spans, s) && s.private == private && Cites(c, s) {
      var s := SpanFor(spans, c.marker).value;
      FoundStandsFor(spans, c.marker, s);
      CitationCites(s);
    }
    forall s | StandsFor(spans, s) && s.private == private && Shows(text, s.marker)
      ensures exists c :: c in cs && Cites(c, s)
    {
      FoundStandsFor(spans, s.marker, s);
      CitationCites(s);
    }
  }
}
