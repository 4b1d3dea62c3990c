/** Cutting a statute into sections, and sections into their parts. */
module StatuteSegmenter {
  import opened Wrappers
  import opened StableSort
  import opened Text
  import opened StatutePatterns
  import opened StatuteOpenings

  datatype Level = PartHeading | ChapterHeading | SectionHeading

  /** Where a heading was found; for a section also its number. */
  datatype Anchor = Anchor(pos: nat, level: Level, number: string)

  datatype SegmentKind = SectionKind | PartOf(kind: Kind)

  datatype Segment = Segment(kind: SegmentKind, name: string, text: string, start: nat, end: nat,
    parent: Option<string>)

  datatype Match = Match(kind: Kind, start: nat, end: nat)

  // ---------------------------------------------------------------------------
  // Section ranges
  // ---------------------------------------------------------------------------

  datatype SectionRange = SectionRange(start: nat, end: nat, number: string)

  function ByPosition(): (Anchor, Anchor) -> bool {
    (a: Anchor, b: Anchor) => a.pos <= b.pos
  }

  /** Each section runs to the next heading of any level. */
  function RangesFrom(anchors: seq<Anchor>, i: nat, length: nat): seq<SectionRange>
    requires i <= |anchors|
    decreases |anchors| - i
  {
    if i == |anchors| then []
    else
      var end := if i + 1 < |anchors| then anchors[i + 1].pos else length;
      (if anchors[i].level == SectionHeading then [SectionRange(anchors[i].pos, end, anchors[i].number)] else [])
      + RangesFrom(anchors, i + 1, length)
  }

  ghost predicate AnchorsWithin(anchors: seq<Anchor>, length: nat) {
    forall i | 0 <= i < |anchors| :: anchors[i].pos <= length
  }

  ghost predicate InRow(rs: seq<SectionRange>, from: nat, length: nat) {
    && (forall i | 0 <= i < |rs| :: from <= rs[i].start <= rs[i].end <= length)
    && forall i, j | 0 <= i < j < |rs| :: rs[i].end <= rs[j].start
  }

  lemma OneMoreRange(rs: seq<SectionRange>, r: SectionRange, length: nat)
    requires InRow(rs, r.end, length) && r.start <= r.end <= length
    ensures InRow([r] + rs, r.start, length)
  {
    var all := [r] + rs;
    assert forall a | 0 < a < |all| :: all[a] == rs[a - 1];
  }

  lemma RowFromEarlier(rs: seq<SectionRange>, later: nat, earlier: nat, length: nat)
    requires InRow(rs, later, length) && earlier <= later
    ensures InRow(rs, earlier, length)
  {
  }

  lemma {:induction false} RangesInRow(anchors: seq<Anchor>, i: nat, length: nat)
    requires i <= |anchors| && Ordered(ByPosition(), anchors) && AnchorsWithin(anchors, length)
    ensures InRow(RangesFrom(anchors, i, length), if i < |anchors| then anchors[i].pos else length, length)
    decreases |anchors| - i
  {
    hide InRow, Ordered, RangesFrom, AnchorsWithin;
    RangesStep(anchors, i, length);
    if i < |anchors| {
      NextIsLater(anchors, i, length);
      RangesInRow(anchors, i + 1, length);
      var end := if i + 1 < |anchors| then anchors[i + 1].pos else length;
      var rest := RangesFrom(anchors, i + 1, length);
      if anchors[i].level == SectionHeading {
        OneMoreRange(rest, SectionRange(anchors[i].pos, end, anchors[i].number), length);
      } else {
        RowFromEarlier(rest, end, anchors[i].pos, length);
      }
    } else {
      NoRangesInRow(length);
    }
  }

  lemma NoRangesInRow(length: nat)
    ensures InRow([], length, length)
  {
  }

  lemma NextIsLater(anchors: seq<Anchor>, i: nat, length: nat)
    requires i < |anchors| && Ordered(ByPosition(), anchors) && AnchorsWithin(anchors, length)
    ensures anchors[i].pos <= (if i + 1 < |anchors| then anchors[i + 1].pos else length) <= length
  {
    var le := ByPosition();
    if i + 1 < |anchors| { assert le(anchors[i], anchors[i + 1]); }
  }

  lemma RangesStep(anchors: seq<Anchor>, i: nat, length: nat)
    requires i <= |anchors|
    ensures RangesFrom(anchors, i, length) ==
            if i == |anchors| then []
            else
              var end := if i + 1 < |anchors| then anchors[i + 1].pos else length;
              if anchors[i].level == SectionHeading then
                [SectionRange(anchors[i].pos, end, anchors[i].number)] + RangesFrom(anchors, i + 1, length)
              else RangesFrom(anchors, i + 1, length)
  {
  }

  /** The ranges of all sections, from the headings of every level. */
  function RangesOf(parts: seq<Anchor>, chapters: seq<Anchor>, sections: seq<Anchor>, length: nat): seq<SectionRange> {
    RangesFrom(Sort(parts + chapters + sections, ByPosition()), 0, length)
  }

  /** The section ranges: in order of position, within the text, no two overlapping. */
  method SectionRanges(parts: seq<Anchor>, chapters: seq<Anchor>, sections: seq<Anchor>, length: nat)
    returns (ranges: seq<SectionRange>)
    requires AnchorsWithin(parts + chapters + sections, length)
    ensures ranges == RangesOf(parts, chapters, sections, length) && InRow(ranges, 0, length)
  {
    hide RangesFrom, InRow, Ordered, Sort, AnchorsWithin;
    var sorted := Sort(parts + chapters + sections, ByPosition());
    SortedWithin(parts + chapters + sections, length);
    ranges := [];
    for i := 0 to |sorted|
      invariant ranges + RangesFrom(sorted, i, length) == RangesFrom(sorted, 0, length)
    {
      RangesStep(sorted, i, length);
      if sorted[i].level != SectionHeading { continue; }
      var end := if i + 1 < |sorted| then sorted[i + 1].pos else length;
      ranges := ranges + [SectionRange(sorted[i].pos, end, sorted[i].number)];
    }
    RangesStep(sorted, |sorted|, length);
    assert ranges + [] == ranges;
    RangesInRow(sorted, 0, length);
    if |sorted| > 0 { RowFromEarlier(ranges, sorted[0].pos, 0, length); }
      else { RowFromEarlier(ranges, length, 0, length); }
  }

  lemma SortedWithin(anchors: seq<Anchor>, length: nat)
    requires AnchorsWithin(anchors, length)
    ensures var s := Sort(anchors, ByPosition()); AnchorsWithin(s, length) && Ordered(ByPosition(), s)
  {
    var le := ByPosition();
    assert TotalPreorder(le, anchors);
    SortOrdered(anchors, le);
    SortElements(anchors, le);
    var s := Sort(anchors, le);
    forall i | 0 <= i < |s| ensures s[i].pos <= length {
      assert s[i] in anchors;
      var k :| 0 <= k < |anchors| && anchors[k] == s[i];
    }
  }

  /** The range of the section with the heading: up to the next heading of whatever level, or to the end. */
  ghost predicate RunsFrom(r: SectionRange, a: Anchor, all: seq<Anchor>, length: nat) {
    && a in all && a.level == SectionHeading && r.start == a.pos && r.number == a.number && r.start <= r.end <= length
    && (r.end == length || exists b :: b in all && b.pos == r.end)
    && forall b | b in all :: b.pos <= r.start || b.pos >= r.end
  }

  lemma HeadingRuns(sorted: seq<Anchor>, k: nat, length: nat)
    requires k < |sorted| && sorted[k].level == SectionHeading
    requires Ordered(ByPosition(), sorted) && AnchorsWithin(sorted, length)
    ensures RunsFrom(SectionRange(sorted[k].pos, if k + 1 < |sorted| then sorted[k + 1].pos else length,
                                  sorted[k].number), sorted[k], sorted, length)
  {
    var le := ByPosition();
    var end := if k + 1 < |sorted| then sorted[k + 1].pos else length;
    NextIsLater(sorted, k, length);
    if k + 1 < |sorted| { assert sorted[k + 1] in sorted; }
    forall b | b in sorted ensures b.pos <= sorted[k].pos || b.pos >= end {
      var j :| 0 <= j < |sorted| && sorted[j] == b;
      if j < k { assert le(sorted[j], sorted[k]); }
      if k + 1 < j { assert le(sorted[k + 1], sorted[j]); }
    }
  }

  lemma {:induction false} RangesRun(sorted: seq<Anchor>, i: nat, length: nat)
    requires i <= |sorted| && Ordered(ByPosition(), sorted) && AnchorsWithin(sorted, length)
    ensures forall r | r in RangesFrom(sorted, i, length) :: exists a :: RunsFrom(r, a, sorted, length)
    ensures forall k | i <= k < |sorted| && sorted[k].level == SectionHeading ::
              exists r :: r in RangesFrom(sorted, i, length) && RunsFrom(r, sorted[k], sorted, length)
    decreases |sorted| - i
  {
    hide Ordered, RunsFrom, RangesFrom, AnchorsWithin;
    RangesStep(sorted, i, length);
    if i < |sorted| {
      RangesRun(sorted, i + 1, length);
      if sorted[i].level == SectionHeading { HeadingRuns(sorted, i, length); }
    }
  }

  lemma RunsAlike(r: SectionRange, a: Anchor, some: seq<Anchor>, all: seq<Anchor>, length: nat)
    requires forall b :: b in some <==> b in all
    ensures RunsFrom(r, a, some, length) ==> RunsFrom(r, a, all, length)
  {
  }

  /** Every section heading has its range, and every range is that of one. */
  lemma RangesAreExact(parts: seq<Anchor>, chapters: seq<Anchor>, sections: seq<Anchor>, length: nat)
    requires AnchorsWithin(parts + chapters + sections, length)
    ensures var all, rs := parts + chapters + sections, RangesOf(parts, chapters, sections, length);
            && (forall r | r in rs :: exists a :: RunsFrom(r, a, all, length))
            && (forall a | a in all && a.level == SectionHeading :: exists r :: r in rs && RunsFrom(r, a, all, length))
  {
    var all := parts + chapters + sections;
    var sorted := Sort(all, ByPosition());
    var rs := RangesOf(parts, chapters, sections, length);
    SortedWithin(all, length);
    SortElements(all, ByPosition());
    RangesRun(sorted, 0, length);
    hide Ordered, AnchorsWithin, RangesFrom, Sort, RunsFrom;
    forall r, a ensures RunsFrom(r, a, sorted, length) ==> RunsFrom(r, a, all, length) {
      RunsAlike(r, a, sorted, all, length);
    }
    forall a | a in all && a.level == SectionHeading ensures exists r :: r in rs && RunsFrom(r, a, all, length) {
      assert a in sorted;
      var k :| 0 <= k < |sorted| && sorted[k] == a;
      var r :| r in rs && RunsFrom(r, sorted[k], sorted, length);
    }
    forall r | r in rs ensures exists a :: RunsFrom(r, a, all, length) {
      var a :| RunsFrom(r, a, sorted, length);
    }
  }

  // ---------------------------------------------------------------------------
  // Parts
  // ---------------------------------------------------------------------------

  /** The matches of one pattern from `i` on, left to right, none overlapping the one before. */
  function Matches(kind: Kind, t: string, i: nat): seq<Match>
    requires i <= |t|
    decreases |t| - i
  {
    var e := MatchEnd(kind, t, i);
    if e.Some? then [Match(kind, i, e.value)] + Matches(kind, t, e.value)
    else if i < |t| then Matches(kind, t, i + 1)
    else []
  }

  /** The matches from `i` on, or none once the text is past. */
  function Rest(kind: Kind, t: string, i: nat): seq<Match> {
    if i <= |t| then Matches(kind, t, i) else []
  }

  lemma RestStep(kind: Kind, t: string, i: nat)
    requires i <= |t|
    ensures var e := MatchEnd(kind, t, i);
            Rest(kind, t, i) ==
            if e.Some? then [Match(kind, i, e.value)] + Rest(kind, t, e.value) else Rest(kind, t, i + 1)
  {
    hide MatchEnd;
  }

  method FindAll(kind: Kind, t: string) returns (ms: seq<Match>)
    ensures ms == Matches(kind, t, 0)
  {
    hide MatchEnd, Matches;
    ms := [];
    var i := 0;
    while i <= |t|
      invariant i <= |t| + 1 && ms + Rest(kind, t, i) == Matches(kind, t, 0)
      decreases |t| + 1 - i
    {
      var e := MatchEnd(kind, t, i);
      RestStep(kind, t, i);
      if e.Some? {
        ms := ms + [Match(kind, i, e.value)];
        i := e.value;
      } else {
        i := i + 1;
      }
    }
  }

  predicate IsMatch(m: Match, t: string) {
    m.start <= |t| && MatchEnd(m.kind, t, m.start) == Some(m.end)
  }

  lemma {:induction false} MatchesAre(kind: Kind, t: string, i: nat)
    requires i <= |t|
    ensures forall a | 0 <= a < |Matches(kind, t, i)| ::
              var m := Matches(kind, t, i)[a]; m.kind == kind && i <= m.start && IsMatch(m, t)
    ensures forall a, b | 0 <= a < b < |Matches(kind, t, i)| ::
            Matches(kind, t, i)[a].end <= Matches(kind, t, i)[b].start
    decreases |t| - i
  {
    hide MatchEnd;
    var e := MatchEnd(kind, t, i);
    if e.Some? {
      MatchesAre(kind, t, e.value);
      var rest := Matches(kind, t, e.value);
      assert forall a | 0 < a < |Matches(kind, t, i)| :: Matches(kind, t, i)[a] == rest[a - 1];
    } else if i < |t| {
      MatchesAre(kind, t, i + 1);
    }
  }

  /** Nothing is missed: wherever a part opens, it is found, or is inside the words of one that is. */
  lemma {:induction false} OpeningsAreFound(kind: Kind, t: string, i: nat, p: nat, e: nat)
    requires i <= p <= |t| && Opens(kind, t, p, e)
    ensures exists m ::
              m in Matches(kind, t, i) && m.kind == kind && m.start <= p < m.end && Opens(kind, t, m.start, m.end)
    decreases |t| - i
  {
    hide Opens;
    OpeningsAre(kind, t, p, e);
    hide MatchEnd;
    var here := MatchEnd(kind, t, i);
    if here.Some? {
      OpeningsAre(kind, t, i, here.value);
      var m := Match(kind, i, here.value);
      assert m in Matches(kind, t, i);
      if p >= here.value { OpeningsAreFound(kind, t, here.value, p, e); }
    } else {
      OpeningsAreFound(kind, t, i + 1, p, e);
    }
  }

  /** A part ends at the first boundary after its opening words, or with the section. */
  ghost predicate PartRuns(m: Match, sectionText: string, length: nat, end: nat) {
    && m.end <= |sectionText|
    && exists b: Option<nat> :: IsNextBoundary(sectionText[m.end..], b) &&
         end == if b.Some? then m.end + b.value else length
  }

  predicate SpaceAt(t: string, x: nat) {
    x < |t| && IsSpace(t[x])
  }

  /** Two ranges of the section text share white space at most. */
  ghost predicate ShareOnlySpaces(t: string, a: nat, b: nat, c: nat, d: nat) {
    forall x: nat | a <= x < b && c <= x < d :: SpaceAt(t, x)
  }

  /** The later of two parts of one section: what it shares with the earlier one is white space. */
  lemma LaterPart(m: Match, m': Match, t: string, length: nat, end: nat, end': nat)
    requires IsMatch(m, t) && IsMatch(m', t) && PartRuns(m, t, length, end) && PartRuns(m', t, length, end')
    requires m.start <= m'.start && (m.kind == m'.kind ==> m.end <= m'.start)
    ensures ShareOnlySpaces(t, m.start, end, m'.start, end')
  {
    hide BoundaryAt, MatchEnd;
    var y := SkipSpaces(t, m'.start);
    if m.kind == m'.kind {
    } else {
      OpeningsDoNotNest(m.kind, m'.kind, t, m.start, m'.start);
    }
    assert m.end <= y;
    OpeningIsBoundary(m'.kind, t, m'.start, m.end);
    var x := if m'.start < m.end then m.end else m'.start;
    assert x <= y <= |t|;
    assert BoundaryAt(t[m.end..], x - m.end);
    var b :| IsNextBoundary(t[m.end..], b) && end == if b.Some? then m.end + b.value else length;
    assert b.Some? && end <= x;
    forall z: nat | m.start <= z < end && m'.start <= z < end' ensures SpaceAt(t, z) {
      assert t[m'.start..y][z - m'.start] == t[z];
    }
  }

  // ---------------------------------------------------------------------------
  // Segments
  // ---------------------------------------------------------------------------

  function NameOf(m: Match, section: string, t: string): string
    requires m.end <= |t| && m.start <= m.end
  {
    match m.kind
    case Subsection => section + Strip(t[m.start..m.end])
    case Proviso => section + " - proviso"
    case Explanation => section + " - explanation"
    case Illustration => section + " - illustration"
  }

  /** The segment of a part of the section that begins at `start` of the text. */
  ghost predicate IsPartSegment(s: Segment, m: Match, text: string, r: SectionRange, t: string) {
    && s.kind == PartOf(m.kind) && IsMatch(m, t) && s.start == r.start + m.start
    && r.start <= s.start <= s.end <= r.end <= |text| && PartRuns(m, t, r.end - r.start, s.end - r.start)
    && s.text == Strip(text[s.start..s.end])
    && s.parent == Some("Section " + r.number)
    && s.name == match m.kind
                 case Subsection => "Section " + r.number + Strip(t[m.start..m.end])
                 case Proviso => "Section " + r.number + " - proviso"
                 case Explanation => "Section " + r.number + " - explanation"
                 case Illustration => "Section " + r.number + " - illustration"
  }

  ghost predicate ArePartSegments(ss: seq<Segment>, ms: seq<Match>, text: string, r: SectionRange, t: string) {
    |ss| == |ms| && forall k | 0 <= k < |ss| :: IsPartSegment(ss[k], ms[k], text, r, t)
  }

  /** The text of a section, without the white space at its end. */
  function SectionTextOf(text: string, r: SectionRange): string
    requires r.start <= r.end <= |text|
  {
    RStrip(text[r.start..r.end])
  }

  lemma SectionTextIsPrefix(text: string, r: SectionRange)
    requires r.start <= r.end <= |text|
    ensures SectionTextOf(text, r) <= text[r.start..r.end]
  {
    var b := RStripCuts(text[r.start..r.end]);
  }

  method PartSegments(text: string, r: SectionRange, kind: Kind) returns (ss: seq<Segment>)
    requires r.start <= r.end <= |text|
    ensures ArePartSegments(ss, Matches(kind, SectionTextOf(text, r), 0), text, r, SectionTextOf(text, r))
  {
    hide MatchEnd, SectionTextOf, BoundaryAt, Strip;
    var t := SectionTextOf(text, r);
    SectionTextIsPrefix(text, r);
    var found := FindAll(kind, t);
    MatchesAre(kind, t, 0);
    ss := [];
    for k := 0 to |found|
      invariant ArePartSegments(ss, found[..k], text, r, t)
    {
      var m := found[k];
      assert IsMatch(m, t);
      var b := NextBoundary(t[m.end..]);
      var end := if b.Some? then r.start + m.end + b.value else r.end;
      var s := Segment(PartOf(kind), NameOf(m, "Section " + r.number, t), Strip(text[r.start + m.start..end]),
                       r.start + m.start, end, Some("Section " + r.number));
      assert PartRuns(m, t, r.end - r.start, end - r.start);
      assert found[..k + 1] == found[..k] + [m];
      ss := ss + [s];
    }
    assert found[..|found|] == found;
  }

  /** All the parts of a section: subsections, then provisos, explanations and illustrations. */
  function AllMatches(t: string): seq<Match> {
    Matches(Subsection, t, 0) + Matches(Proviso, t, 0) + Matches(Explanation, t, 0) + Matches(Illustration, t, 0)
  }

  ghost predicate IsSectionSegment(s: Segment, text: string, r: SectionRange)
    requires r.start <= r.end <= |text|
  {
    s.kind == SectionKind && s.start == r.start && s.end == r.end && s.text == SectionTextOf(text, r)
    && s.name == "Section " + r.number
  }

  ghost predicate IsCut(ss: seq<Segment>, text: string, r: SectionRange)
    requires r.start <= r.end <= |text|
  {
    && ss != [] && IsSectionSegment(ss[0], text, r)
    && ArePartSegments(ss[1..], AllMatches(SectionTextOf(text, r)), text, r, SectionTextOf(text, r))
  }

  method CutSection(text: string, r: SectionRange) returns (ss: seq<Segment>)
    requires r.start <= r.end <= |text|
    ensures IsCut(ss, text, r)
  {
    hide SectionTextOf, IsPartSegment, Matches;
    ghost var t := SectionTextOf(text, r);
    var head := Segment(SectionKind, "Section " + r.number, SectionTextOf(text, r), r.start, r.end, None);
    var a := PartSegments(text, r, Subsection);
    var b := PartSegments(text, r, Proviso);
    var c := PartSegments(text, r, Explanation);
    var d := PartSegments(text, r, Illustration);
    ghost var ma, mb := Matches(Subsection, t, 0), Matches(Proviso, t, 0);
    ghost var mc, md := Matches(Explanation, t, 0), Matches(Illustration, t, 0);
    PartsConcat(a, b, ma, mb, text, r, t);
    PartsConcat(a + b, c, ma + mb, mc, text, r, t);
    PartsConcat(a + b + c, d, ma + mb + mc, md, text, r, t);
    ss := [head] + (a + b + c + d);
    assert ss[1..] == a + b + c + d;
  }

  lemma PartsConcat(a: seq<Segment>, b: seq<Segment>, ma: seq<Match>, mb: seq<Match>, text: string, r: SectionRange,
                    t: string)
    requires ArePartSegments(a, ma, text, r, t) && ArePartSegments(b, mb, text, r, t)
    ensures ArePartSegments(a + b, ma + mb, text, r, t)
  {
    hide IsPartSegment;
  }

  /** Sections one after the other, each followed by its parts. */
  method SegmentSections(text: string, parts: seq<Anchor>, chapters: seq<Anchor>, sections: seq<Anchor>)
    returns (groups: seq<seq<Segment>>)
    requires AnchorsWithin(parts + chapters + sections, |text|)
    ensures var ranges := RangesOf(parts, chapters, sections, |text|);
            && InRow(ranges, 0, |text|) && |groups| == |ranges|
            && forall i | 0 <= i < |groups| :: IsCut(groups[i], text, ranges[i])
  {
    hide IsCut, RangesOf;
    var rs := SectionRanges(parts, chapters, sections, |text|);
    groups := [];
    for i := 0 to |rs|
      invariant |groups| == i && forall j | 0 <= j < i :: IsCut(groups[j], text, rs[j])
    {
      var ss := CutSection(text, rs[i]);
      groups := groups + [ss];
    }
  }

  lemma MatchesDiffer(t: string, i: nat, j: nat)
    requires i < j < |AllMatches(t)|
    ensures var m, m' := AllMatches(t)[i], AllMatches(t)[j];
            IsMatch(m, t) && IsMatch(m', t) && (m.kind == m'.kind ==> m.end <= m'.start)
  {
    hide IsMatch, Matches;
    MatchesAre(Subsection, t, 0);
    MatchesAre(Proviso, t, 0);
    MatchesAre(Explanation, t, 0);
    MatchesAre(Illustration, t, 0);
    var a, b, c, d := Matches(Subsection, t, 0), Matches(Proviso, t, 0), Matches(Explanation, t, 0),
      Matches(Illustration, t, 0);
    var m, m' := AllMatches(t)[i], AllMatches(t)[j];
    MatchIn(a, b, c, d, i);
    MatchIn(a, b, c, d, j);
  }

  /** Where an element of four lists in a row comes from. */
  lemma MatchIn(a: seq<Match>, b: seq<Match>, c: seq<Match>, d: seq<Match>, i: nat)
    requires i < |a + b + c + d|
    ensures var m := (a + b + c + d)[i];
            if i < |a| then m == a[i]
            else if i < |a| + |b| then m == b[i - |a|]
            else if i < |a| + |b| + |c| then m == c[i - |a| - |b|]
            else m == d[i - |a| - |b| - |c|]
  {
  }

  /** Of the text, the characters in both segments are white space. */
  ghost predicate ApartButSpaces(text: string, s: Segment, s': Segment) {
    forall x: nat | s.start <= x < s.end && s'.start <= x < s'.end :: SpaceAt(text, x)
  }

  /**
   * The parts of a section lie within the section, and no two of them share a character that is not white
   * space: an explanation may swallow white space with which the next part begins.
   */
  lemma PartsAreApart(ss: seq<Segment>, text: string, r: SectionRange, i: nat, j: nat)
    requires r.start <= r.end <= |text| && IsCut(ss, text, r) && 1 <= i < j < |ss|
    ensures r.start <= ss[i].start <= ss[i].end <= r.end
    ensures ApartButSpaces(text, ss[i], ss[j])
  {
    hide IsMatch, PartRuns, ShareOnlySpaces, IsPartSegment, AllMatches, SectionTextOf;
    var t := SectionTextOf(text, r);
    var m, m' := AllMatches(t)[i - 1], AllMatches(t)[j - 1];
    SegmentOf(ss, text, r, i);
    SegmentOf(ss, text, r, j);
    MatchesDiffer(t, i - 1, j - 1);
    if m.start <= m'.start {
      LaterPart(m, m', t, r.end - r.start, ss[i].end - r.start, ss[j].end - r.start);
      SpacesInText(text, r, ss[i], ss[j]);
    } else {
      SameKindLater(t, i - 1, j - 1);
      LaterPart(m', m, t, r.end - r.start, ss[j].end - r.start, ss[i].end - r.start);
      SpacesInText(text, r, ss[j], ss[i]);
    }
  }

  lemma SegmentOf(ss: seq<Segment>, text: string, r: SectionRange, i: nat)
    requires r.start <= r.end <= |text| && IsCut(ss, text, r) && 1 <= i < |ss|
    ensures var t := SectionTextOf(text, r);
            && |AllMatches(t)| == |ss| - 1 && IsPartSegment(ss[i], AllMatches(t)[i - 1], text, r, t)
            && r.start <= ss[i].start <= ss[i].end <= r.end && ss[i].start == r.start + AllMatches(t)[i - 1].start
            && PartRuns(AllMatches(t)[i - 1], t, r.end - r.start, ss[i].end - r.start)
  {
    hide Matches, AllMatches, SectionTextOf, IsMatch, PartRuns;
    assert ss[1..][i - 1] == ss[i];
  }

  lemma SpacesInText(text: string, r: SectionRange, s: Segment, s': Segment)
    requires r.start <= r.end <= |text| && r.start <= s.start <= s.end && r.start <= s'.start <= s'.end
    requires ShareOnlySpaces(SectionTextOf(text, r), s.start - r.start, s.end - r.start, s'.start - r.start,
             s'.end - r.start)
    ensures ApartButSpaces(text, s, s') && ApartButSpaces(text, s', s)
  {
    hide SectionTextOf, IsSpace;
    SectionTextIsPrefix(text, r);
    var t := SectionTextOf(text, r);
    forall x: nat | s.start <= x < s.end && s'.start <= x < s'.end ensures SpaceAt(text, x) {
      assert SpaceAt(t, x - r.start);
      assert text[r.start..r.end][x - r.start] == text[x];
    }
  }

  lemma SameKindLater(t: string, i: nat, j: nat)
    requires i < j < |AllMatches(t)| && AllMatches(t)[j].start < AllMatches(t)[i].start
    ensures AllMatches(t)[i].kind != AllMatches(t)[j].kind
  {
    hide Matches;
    MatchesDiffer(t, i, j);
  }

  /** Segments of different sections have nothing in common. */
  lemma SectionsAreApart(text: string, ranges: seq<SectionRange>, groups: seq<seq<Segment>>, i: nat, j: nat, a: nat,
                         b: nat)
    requires InRow(ranges, 0, |text|) && |groups| == |ranges|
    requires forall k | 0 <= k < |groups| :: IsCut(groups[k], text, ranges[k])
    requires i < j < |groups| && a < |groups[i]| && b < |groups[j]|
    ensures groups[i][a].end <= groups[j][b].start
  {
    SegmentWithin(groups[i], text, ranges[i], a);
    SegmentWithin(groups[j], text, ranges[j], b);
  }

  lemma SegmentWithin(ss: seq<Segment>, text: string, r: SectionRange, i: nat)
    requires r.start <= r.end <= |text| && IsCut(ss, text, r) && i < |ss|
    ensures r.start <= ss[i].start <= ss[i].end <= r.end
  {
    hide Matches, SectionTextOf, PartRuns, MatchEnd;
    if i > 0 {
      assert ss[1..][i - 1] == ss[i];
      assert IsPartSegment(ss[i], AllMatches(SectionTextOf(text, r))[i - 1], text, r, SectionTextOf(text, r));
    }
  }
}
