/**
 * Where sentences begin and end, said in characters: exactly at the gaps behind full stops, question and exclamation
 * marks; and what that means for the sentences the gate keeps.
 */
module SentenceCuts {
  import opened Wrappers
  import opened Text
  import opened Spelling
  import opened Markers
  import opened Sentences
  import opened Enforce

  // ---------------------------------------------------------------------------
  // Gaps
  // ---------------------------------------------------------------------------

  /** Any number of markers, each with or without white space before it. */
  ghost predicate MarkersAt(t: string, i: nat, j: nat)
    decreases j - i
  {
    i == j || exists s: nat, e: nat :: i <= s < e <= j && SpacesTo(t, i, s) && MarkerAt(t, s, e) && MarkersAt(t, e, j)
  }

  /** Behind `p` any number of markers, then white space, and at `e` what may begin a sentence. */
  ghost predicate Gap(t: string, p: nat, e: nat) {
    && p < e < |t|
    && ('A' <= t[e] <= 'Z' || '0' <= t[e] <= '9' || t[e] == '-' || t[e] == '*' || t[e] == '\U{2022}' || t[e] == '[')
    && exists g: nat :: p <= g < e && MarkersAt(t, p, g) && SpacesTo(t, g, e)
  }

  /** A gap right behind a full stop, a question mark or an exclamation mark. */
  ghost predicate Break(t: string, p: nat, e: nat) {
    && 0 < p && Gap(t, p, e)
    && (t[p - 1] == '.' || t[p - 1] == '!' || t[p - 1] == '?')
  }

  // ---------------------------------------------------------------------------
  // Gaps are what the pattern matches
  // ---------------------------------------------------------------------------

  lemma SkippedAreSpaces(t: string, i: nat)
    requires i <= |t|
    ensures SpacesTo(t, i, SkipSpaces(t, i))
  {
    hide IsSpace;
    var s := SkipSpaces(t, i);
    forall k | i <= k < s ensures IsSpace(t[k]) {
      assert t[i..s][k - i] == t[k];
    }
  }

  lemma {:induction false} DigitsStop(t: string, i: nat, j: nat)
    requires i <= j < |t| && !IsDigit(t[j]) && forall k | i <= k < j :: IsDigit(t[k])
    ensures DigitsEnd(t, i) == j
    decreases j - i
  {
    hide IsDigit;
    if i < j { DigitsStop(t, i + 1, j); }
  }

  lemma MarkerIsFound(t: string, i: nat, j: nat)
    requires MarkerAt(t, i, j)
    ensures MarkerEnd(t, i) == Some(j)
  {
    MarkerPunctuation(']');
    hide IsDigit, IsLabel, Bracket;
    DigitsStop(t, i + 2, j - 1);
  }

  lemma FoundIsMarker(t: string, i: nat)
    requires i <= |t| && MarkerEnd(t, i).Some?
    ensures MarkerAt(t, i, MarkerEnd(t, i).value)
  {
    hide IsDigit;
    var j := DigitsEnd(t, i + 2);
    forall k | i + 2 <= k < j ensures IsDigit(t[k]) {
      assert t[i + 2..j][k - (i + 2)] == t[k];
      assert t[k] in t[i + 2..j];
    }
  }

  lemma MarkerIsNoSpace(t: string, i: nat, j: nat)
    requires MarkerAt(t, i, j)
    ensures !IsSpace(t[i])
  {
    MarkerPunctuation('[');
  }

  /** One marker with the white space before it, as it is found. */
  lemma NextMarker(t: string, i: nat, s: nat, e: nat)
    requires SpacesTo(t, i, s) && MarkerAt(t, s, e)
    ensures SkipSpaces(t, i) == s && MarkerEnd(t, SkipSpaces(t, i)) == Some(e)
  {
    MarkerIsNoSpace(t, s, e);
    hide IsSpace, IsDigit;
    SkippedIs(t, i, s);
    MarkerIsFound(t, s, e);
  }

  lemma {:induction false} OnlyMarkersAre(t: string, i: nat, j: nat)
    requires i <= j <= |t|
    ensures OnlyMarkers(t, i, j) <==> MarkersAt(t, i, j)
    decreases j - i
  {
    hide IsSpace, IsDigit, IsLabel, SkipSpaces, MarkerEnd, SpacesTo, MarkerAt;
    if i < j {
      if MarkersAt(t, i, j) {
        var s: nat, e: nat :| i <= s < e <= j && SpacesTo(t, i, s) && MarkerAt(t, s, e) && MarkersAt(t, e, j);
        NextMarker(t, i, s, e);
        OnlyMarkersAre(t, e, j);
      }
      if OnlyMarkers(t, i, j) {
        var s := SkipSpaces(t, i);
        var e := MarkerEnd(t, s).value;
        SkippedAreSpaces(t, i);
        FoundIsMarker(t, s);
        OnlyMarkersAre(t, e, j);
      }
    }
  }

  lemma StartIsNoSpace(c: char)
    requires 'A' <= c <= 'Z' || '0' <= c <= '9' || c == '-' || c == '*' || c == '\U{2022}' || c == '['
    ensures Starts(c) && !IsSpace(c)
  {
  }

  /** Every gap is matched, and the match goes at least as far. */
  lemma {:induction false} GapIsCut(t: string, p: nat, g: nat, e: nat)
    requires p <= g && Gap(t, p, e) && g < e && MarkersAt(t, p, g) && SpacesTo(t, g, e)
    ensures CutEnd(t, p).Some? && e <= CutEnd(t, p).value
    decreases g - p
  {
    StartIsNoSpace(t[e]);
    hide IsSpace, IsDigit, IsLabel, SkipSpaces, MarkerEnd, SpacesTo, MarkerAt, Starts;
    if p == g {
      SkippedIs(t, p, e);
    } else {
      var s: nat, f: nat :| p <= s < f <= g && SpacesTo(t, p, s) && MarkerAt(t, s, f) && MarkersAt(t, f, g);
      NextMarker(t, p, s, f);
      assert Gap(t, f, e);
      GapIsCut(t, f, g, e);
    }
  }

  lemma MarkersCons(t: string, p: nat, s: nat, f: nat, g: nat)
    requires p <= s < f <= g && SpacesTo(t, p, s) && MarkerAt(t, s, f) && MarkersAt(t, f, g)
    ensures MarkersAt(t, p, g)
  {
    hide SpacesTo, MarkerAt;
  }

  /** And what is matched is a gap. */
  lemma {:induction false} CutIsGap(t: string, p: nat)
    requires p <= |t| && CutEnd(t, p).Some?
    ensures Gap(t, p, CutEnd(t, p).value)
    decreases |t| - p
  {
    hide IsSpace, IsDigit, IsLabel, SkipSpaces, MarkerEnd, SpacesTo, MarkerAt;
    var s := SkipSpaces(t, p);
    var m := MarkerEnd(t, s);
    SkippedAreSpaces(t, p);
    if m.Some? && CutEnd(t, m.value).Some? {
      CutIsGap(t, m.value);
      var e := CutEnd(t, m.value).value;
      var g: nat :| m.value <= g < e && MarkersAt(t, m.value, g) && SpacesTo(t, g, e);
      FoundIsMarker(t, s);
      MarkersCons(t, p, s, m.value, g);
    } else {
      assert MarkersAt(t, p, p);
    }
  }

  lemma CutsAreGaps(t: string, p: nat)
    requires 0 < p <= |t|
    ensures CutAt(t, p).Some? ==> Break(t, p, CutAt(t, p).value)
    ensures forall e: nat | Break(t, p, e) :: CutAt(t, p).Some? && e <= CutAt(t, p).value
  {
    hide CutEnd, MarkersAt, SpacesTo;
    if CutEnd(t, p).Some? { CutIsGap(t, p); }
    forall e: nat | Break(t, p, e) ensures CutAt(t, p).Some? && e <= CutAt(t, p).value {
      var g: nat :| p <= g < e && MarkersAt(t, p, g) && SpacesTo(t, g, e);
      GapIsCut(t, p, g, e);
    }
  }

  // ---------------------------------------------------------------------------
  // Sentences begin at the gaps
  // ---------------------------------------------------------------------------

  ghost predicate BeginsAt(rs: seq<Range>, e: nat) {
    exists k :: 0 < k < |rs| && rs[k].start == e
  }

  /** Inside a match there is no end of a sentence. */
  lemma {:induction false} NoEndInCut(t: string, p: nat, k: nat)
    requires p <= |t| && CutEnd(t, p).Some? && p <= k < CutEnd(t, p).value
    ensures !Ends(t[k])
    decreases |t| - p
  {
    var s := SkipSpaces(t, p);
    var m := MarkerEnd(t, s);
    SkippedAreSpaces(t, p);
    if k < s { StartsAreNotSpaces(t[k]); }
    hide IsSpace, IsDigit, IsLabel, SkipSpaces, MarkerEnd, Starts, Ends;
    if k >= s && m.Some? && CutEnd(t, m.value).Some? {
      if k < m.value {
        FoundIsMarker(t, s);
        MarkerHasNoEnd(t, s, m.value, k);
      } else {
        NoEndInCut(t, m.value, k);
      }
    }
  }

  lemma MarkerHasNoEnd(t: string, i: nat, j: nat, k: nat)
    requires MarkerAt(t, i, j) && i <= k < j
    ensures !Ends(t[k])
  {
    StartsAreNotSpaces(t[k]);
  }

  lemma FirstBegins(t: string, start: nat, pos: nat)
    requires start < |t| && start <= pos <= |t| + 1
    ensures var rs := Ranges(t, start, pos); rs != [] && rs[0].start == start
    decreases |t| + 1 - pos
  {
    hide CutAt, RunEnd;
    if pos <= |t| && CutAt(t, pos).None? { FirstBegins(t, start, pos + 1); }
  }

  lemma CutGoesOn(t: string, pos: nat)
    requires pos <= |t| && CutAt(t, pos).Some?
    ensures pos < CutAt(t, pos).value < |t|
  {
  }

  /** At every cut from `pos` on a sentence begins. */
  lemma {:induction false} RangesBegin(t: string, start: nat, pos: nat, p: nat)
    requires start < |t| && start <= pos <= p <= |t| && CutAt(t, p).Some?
    ensures BeginsAt(Ranges(t, start, pos), CutAt(t, p).value)
    decreases |t| + 1 - pos
  {
    hide RunEnd;
    var e := CutAt(t, pos);
    if e.None? {
      hide CutAt;
      RangesBegin(t, start, pos + 1, p);
    } else {
      CutGoesOn(t, pos);
      var rest := Ranges(t, e.value, e.value);
      var rs := [Range(start, RunEnd(t, pos))] + rest;
      assert Ranges(t, start, pos) == rs;
      FirstBegins(t, e.value, e.value);
      if p == pos {
        assert rs[1].start == e.value;
      } else {
        EndsAfter(t, pos, p);
        hide CutAt, Ranges;
        RangesBegin(t, e.value, e.value, p);
        var k :| 0 < k < |rest| && rest[k].start == CutAt(t, p).value;
        assert rs[k + 1] == rest[k];
      }
    }
  }

  lemma EndsAfter(t: string, pos: nat, p: nat)
    requires pos < p <= |t| && CutAt(t, pos).Some? && CutAt(t, p).Some?
    ensures CutAt(t, pos).value <= p
  {
    hide Ends, CutEnd;
    if p - 1 < CutAt(t, pos).value { NoEndInCut(t, pos, p - 1); }
  }

  /** The sentence before the break runs up to the last of the markers behind it. */
  ghost predicate EndsBehind(t: string, p: nat, stop: nat) {
    stop <= |t| && MarkersAt(t, p, stop) && forall g: nat | g <= |t| && MarkersAt(t, p, g) :: p <= g ==> g <= stop
  }

  lemma {:induction false} RunIsLongest(t: string, p: nat, g: nat)
    requires p <= g <= |t| && MarkersAt(t, p, g)
    ensures g <= RunEnd(t, p)
    decreases |t| - p
  {
    hide IsSpace, IsDigit, IsLabel, SkipSpaces, MarkerEnd, SpacesTo, MarkerAt;
    if p < g {
      var s: nat, e: nat :| p <= s < e <= g && SpacesTo(t, p, s) && MarkerAt(t, s, e) && MarkersAt(t, e, g);
      NextMarker(t, p, s, e);
      RunIsLongest(t, e, g);
    }
  }

  lemma RunEndsBehind(t: string, p: nat)
    requires p <= |t|
    ensures EndsBehind(t, p, RunEnd(t, p))
  {
    hide IsSpace, IsDigit, IsLabel, RunEnd, OnlyMarkers, MarkersAt;
    RunIsMarkers(t, p);
    OnlyMarkersAre(t, p, RunEnd(t, p));
    forall g: nat | p <= g <= |t| && MarkersAt(t, p, g) ensures g <= RunEnd(t, p) {
      RunIsLongest(t, p, g);
    }
  }

  /** One sentence and the next: they part at the break at `p`. */
  ghost predicate PartAt(t: string, r: Range, next: Range, p: nat) {
    && r.start < p <= |t| && CutAt(t, p) == Some(next.start) && r.stop == RunEnd(t, p)
  }

  ghost predicate Parted(t: string, r: Range, next: Range) {
    exists p: nat :: PartAt(t, r, next, p)
  }

  /** Between its begin and the break that ends it no sentence holds another. */
  ghost predicate Whole(t: string, r: Range) {
    forall p | r.start < p <= r.stop <= |t| && CutAt(t, p).Some? :: r.stop == RunEnd(t, p)
  }

  ghost predicate AllParted(t: string, rs: seq<Range>) {
    forall j, k | 0 <= j < k < |rs| && k == j + 1 :: Parted(t, rs[j], rs[k])
  }

  lemma PartedFirst(t: string, r: Range, rest: seq<Range>)
    requires rest != [] && Parted(t, r, rest[0]) && AllParted(t, rest)
    ensures AllParted(t, [r] + rest)
  {
    hide Parted;
    var rs := [r] + rest;
    forall j, k | 0 <= j < k < |rs| && k == j + 1 ensures Parted(t, rs[j], rs[k]) {
      if j > 0 { assert rs[j] == rest[j - 1] && rs[k] == rest[k - 1]; }
    }
  }

  lemma {:induction false} RangesPart(t: string, start: nat, pos: nat)
    requires start < |t| && start <= pos <= |t| + 1 && (start > 0 ==> !Ends(t[start - 1]))
    requires forall p | start < p < pos :: CutAt(t, p).None?
    ensures var rs := Ranges(t, start, pos);
            && (forall r | r in rs :: Whole(t, r))
            && AllParted(t, rs)
    decreases |t| + 1 - pos
  {
    hide RunEnd, CutAt, Ends, AllParted, Parted, Whole;
    if pos > |t| {
      LastIsWhole(t, start);
      OneIsParted(t, Range(start, |t|));
    } else {
      var e := CutAt(t, pos);
      if e.None? {
        RangesPart(t, start, pos + 1);
      } else {
        CutGoesOn(t, pos);
        NoCutAtStart(t, start, pos);
        var rest := Ranges(t, e.value, e.value);
        var r := Range(start, RunEnd(t, pos));
        FirstBegins(t, e.value, e.value);
        BeforeCutIsNoEnd(t, pos);
        RangesPart(t, e.value, e.value);
        FirstIsWhole(t, start, pos);
        PartedHere(t, r, rest[0], pos);
        var rs := [r] + rest;
        assert Ranges(t, start, pos) == rs;
        PartedFirst(t, r, rest);
      }
    }
  }

  lemma OneIsParted(t: string, r: Range)
    ensures AllParted(t, [r])
  {
  }

  lemma LastIsWhole(t: string, start: nat)
    requires forall p | start < p <= |t| :: CutAt(t, p).None?
    ensures Whole(t, Range(start, |t|))
  {
    hide CutAt;
  }

  lemma NoCutAtStart(t: string, start: nat, pos: nat)
    requires start <= pos <= |t| && CutAt(t, pos).Some? && (start > 0 ==> !Ends(t[start - 1]))
    ensures start < pos
  {
    hide CutEnd, Ends;
  }

  lemma BeforeCutIsNoEnd(t: string, pos: nat)
    requires pos <= |t| && CutAt(t, pos).Some?
    ensures var e := CutAt(t, pos).value; 0 < e < |t| && !Ends(t[e - 1])
  {
    CutGoesOn(t, pos);
    NoEndInCut(t, pos, CutAt(t, pos).value - 1);
  }

  lemma PartedHere(t: string, r: Range, next: Range, p: nat)
    requires r.start < p <= |t| && CutAt(t, p) == Some(next.start) && r.stop == RunEnd(t, p)
    ensures Parted(t, r, next)
  {
    hide CutAt, RunEnd;
    assert PartAt(t, r, next, p);
  }

  /** The markers behind a break hold no other break. */
  lemma FirstIsWhole(t: string, start: nat, pos: nat)
    requires start <= pos <= |t| && CutAt(t, pos).Some?
    requires forall p | start < p < pos :: CutAt(t, p).None?
    ensures Whole(t, Range(start, RunEnd(t, pos)))
  {
    hide CutEnd, Ends;
    var r := Range(start, RunEnd(t, pos));
    RunIsMarkers(t, pos);
    forall p | r.start < p <= r.stop && CutAt(t, p).Some? ensures r.stop == RunEnd(t, p) {
      if pos < p { MarkersNeverEnd(t, pos, r.stop, p - 1); }
    }
  }

  // ---------------------------------------------------------------------------
  // Exactly where sentences begin and end
  // ---------------------------------------------------------------------------

  /** The next sentence begins at the far end of the longest gap behind `p`; this one ends with the markers there. */
  ghost predicate CutBehind(t: string, r: Range, next: Range, p: nat) {
    && r.start < p && Break(t, p, next.start) && (forall e: nat | Break(t, p, e) :: e <= next.start)
    && EndsBehind(t, p, r.stop)
  }

  ghost predicate Cut(t: string, r: Range, next: Range) {
    exists p: nat :: CutBehind(t, r, next, p)
  }

  lemma PartedIsCut(t: string, r: Range, next: Range)
    requires Parted(t, r, next)
    ensures Cut(t, r, next)
  {
    hide CutAt, Break, EndsBehind, RunEnd;
    var p: nat :| PartAt(t, r, next, p);
    CutsAreGaps(t, p);
    RunEndsBehind(t, p);
    assert CutBehind(t, r, next, p);
  }

  /**
   * Every cut is made: at each gap behind a full stop, a question or an exclamation mark a sentence begins, and
   * nowhere else. It begins at the far end of the longest such gap, and the sentence before it ends with the
   * markers in the gap.
   */
  lemma SentencesAreCutExactly(text: string)
    ensures var t, rs := Strip(text), SentenceRanges(Strip(text));
            && (forall p: nat, e: nat | Break(t, p, e) ::
                  exists k :: 0 < k < |rs| && Break(t, p, rs[k].start) && e <= rs[k].start)
            && (forall j, k | 0 <= j < k < |rs| && k == j + 1 :: Cut(t, rs[j], rs[k]))
            && (t != [] ==> rs != [] && rs[0].start == 0 && rs[|rs| - 1].stop == |t|)
  {
    StripIsStripped(text);
    var t, rs := Strip(text), SentenceRanges(Strip(text));
    SentencesChain(t);
    hide IsStripped, Strip, Break, CutAt, Ranges, Whole, Chained, Parted, Cut;
    if t != [] {
      RangesPart(t, 0, 0);
      forall j, k | 0 <= j < k < |rs| && k == j + 1 ensures Cut(t, rs[j], rs[k]) {
        PartedIsCut(t, rs[j], rs[k]);
      }
    }
    forall p: nat, e: nat | Break(t, p, e)
      ensures exists k :: 0 < k < |rs| && Break(t, p, rs[k].start) && e <= rs[k].start
    {
      BreakIsBegun(t, p, e);
    }
  }

  lemma BreakIsBegun(t: string, p: nat, e: nat)
    requires Break(t, p, e)
    ensures var rs := SentenceRanges(t); exists k :: 0 < k < |rs| && Break(t, p, rs[k].start) && e <= rs[k].start
  {
    hide Break, CutAt, Ranges;
    BreakIsInside(t, p, e);
    CutsAreGaps(t, p);
    RangesBegin(t, 0, 0, p);
    var rs := SentenceRanges(t);
    var k :| 0 < k < |rs| && rs[k].start == CutAt(t, p).value;
  }

  lemma BreakIsInside(t: string, p: nat, e: nat)
    requires Break(t, p, e)
    ensures 0 < p < e < |t|
  {
    hide MarkersAt;
  }

  // ---------------------------------------------------------------------------
  // A sentence is one sentence
  // ---------------------------------------------------------------------------

  /** Behind a break inside there is nothing but markers. */
  ghost predicate Single(s: string) {
    forall p: nat, e: nat | Break(s, p, e) :: MarkersAt(s, p, |s|)
  }

  lemma {:induction false} MarkersInSlice(t: string, a: nat, b: nat, i: nat, j: nat)
    requires a <= b <= |t| && i <= j <= b - a
    ensures MarkersAt(t[a..b], i, j) <==> MarkersAt(t, a + i, a + j)
    decreases j - i
  {
    hide IsSpace, IsDigit, SpacesTo, MarkerAt;
    if i < j {
      if MarkersAt(t[a..b], i, j) {
        var s: nat, e: nat :| i <= s < e <= j && SpacesTo(t[a..b], i, s) && MarkerAt(t[a..b], s, e)
                              && MarkersAt(t[a..b], e, j);
        SpacesInSlice(t, a, b, i, s);
        MarkerInSlice(t, a, b, s, e);
        MarkersInSlice(t, a, b, e, j);
      }
      if MarkersAt(t, a + i, a + j) {
        var s: nat, e: nat :| a + i <= s < e <= a + j && SpacesTo(t, a + i, s) && MarkerAt(t, s, e)
                              && MarkersAt(t, e, a + j);
        SpacesInSlice(t, a, b, i, s - a);
        MarkerInSlice(t, a, b, s - a, e - a);
        MarkersInSlice(t, a, b, e - a, j);
        assert SpacesTo(t[a..b], i, s - a) && MarkerAt(t[a..b], s - a, e - a) && MarkersAt(t[a..b], e - a, j);
      }
    }
  }

  lemma SpacesInSlice(t: string, a: nat, b: nat, i: nat, j: nat)
    requires a <= b <= |t| && i <= j <= b - a
    ensures SpacesTo(t[a..b], i, j) <==> SpacesTo(t, a + i, a + j)
  {
    hide IsSpace;
    if SpacesTo(t[a..b], i, j) {
      forall k | a + i <= k < a + j ensures IsSpace(t[k]) {
        assert t[a..b][k - a] == t[k];
      }
    }
  }

  lemma MarkerInSlice(t: string, a: nat, b: nat, i: nat, j: nat)
    requires a <= b <= |t| && i <= j <= b - a
    ensures MarkerAt(t[a..b], i, j) <==> MarkerAt(t, a + i, a + j)
  {
    hide IsDigit;
    if MarkerAt(t[a..b], i, j) {
      forall k | a + i + 2 <= k < a + j - 1 ensures IsDigit(t[k]) {
        assert t[a..b][k - a] == t[k];
      }
    }
  }

  lemma BreakInSlice(t: string, a: nat, b: nat, p: nat, e: nat)
    requires a <= b <= |t| && Break(t[a..b], p, e)
    ensures Break(t, a + p, a + e)
  {
    hide MarkersAt, SpacesTo;
    var g: nat :| p <= g < e && MarkersAt(t[a..b], p, g) && SpacesTo(t[a..b], g, e);
    MarkersInSlice(t, a, b, p, g);
    SpacesInSlice(t, a, b, g, e);
    assert a + p <= a + g < a + e && MarkersAt(t, a + p, a + g) && SpacesTo(t, a + g, a + e);
  }

  lemma WholeIsSingle(t: string, r: Range)
    requires Whole(t, r) && r.start < r.stop <= |t|
    ensures Single(t[r.start..r.stop])
  {
    var s := t[r.start..r.stop];
    hide Break, MarkersAt, Whole;
    forall p: nat, e: nat | Break(s, p, e) ensures MarkersAt(s, p, |s|) {
      BreakEndsIt(t, r, p, e);
      MarkersInSlice(t, r.start, r.stop, p, |s|);
    }
  }

  lemma BreakEndsIt(t: string, r: Range, p: nat, e: nat)
    requires Whole(t, r) && r.start < r.stop <= |t| && Break(t[r.start..r.stop], p, e)
    ensures 0 < p < r.stop - r.start && MarkersAt(t, r.start + p, r.stop)
  {
    hide Break, CutAt, MarkersAt, RunEnd;
    BreakIsInside(t[r.start..r.stop], p, e);
    BreakInSlice(t, r.start, r.stop, p, e);
    CutsAreGaps(t, r.start + p);
    RunEndsBehind(t, r.start + p);
  }

  /** Every sentence the splitter gives is a single one. */
  lemma SentencesAreSingle(text: string, s: string)
    requires s in SentencesOf(text)
    ensures Single(s)
  {
    var t, rs := Strip(text), SentenceRanges(Strip(text));
    StripIsStripped(text);
    SentencesChain(t);
    hide IsSpace, IsStripped, Strip, Follows, CutAt, Ranges, Single;
    SlicesAre(t, rs);
    var k :| 0 <= k < |rs| && SentencesOf(text)[k] == s;
    SentenceBounds(t, rs[k]);
    RangesPart(t, 0, 0);
    assert rs[k] in rs;
    WholeIsSingle(t, rs[k]);
  }

  /**
   * At the gate: whatever is kept was one sentence with a marker of the evidence pack of its own, so nothing is
   * let through on the strength of the sentence before it.
   */
  lemma KeptAreSingle(text: string, allowed: set<string>, ord: Order, s: string)
    requires s in KeptSentences(text, allowed, ord)
    ensures exists o :: o in SentencesOf(text) && KeepSentence(o, allowed, ord) == Some(s) && Single(o)
    ensures LabelSet(s) * allowed != {}
  {
    hide KeepSentence, LabelSet, SentencesOf, Single;
    KeptSentencesAreGrounded(text, allowed, ord, s);
    var verdicts := Verdicts(SentencesOf(text), allowed, ord);
    SurvivorsAre(verdicts);
    var i :| 0 <= i < |verdicts| && verdicts[i] == Some(s);
    var o := SentencesOf(text)[i];
    assert o in SentencesOf(text);
    SentencesAreSingle(text, o);
  }
}
