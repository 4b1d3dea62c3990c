/**
 * The sentence splitter: where it cuts, what the pieces cover, and why no citation marker
 * is lost between them.
 */
module Sentences {
  import opened Wrappers
  import opened Text
  import opened Markers

  /** A sentence ends here. */
  predicate Ends(c: char) {
    c in ".!?"
  }

  /** A sentence may start with this character; the bullet sign is U+2022. */
  predicate Starts(c: char) {
    'A' <= c <= 'Z' || '0' <= c <= '9' || c in "-*[\U{2022}"
  }

  lemma StartsAreNotSpaces(c: char)
    ensures Starts(c) ==> !IsSpace(c)
    ensures Ends(c) ==> !IsSpace(c) && !IsDigit(c) && c !in "[]S"
  {
  }

  // ---------------------------------------------------------------------------
  // The pattern
  // ---------------------------------------------------------------------------

  /** At least one space, and then a character that starts a sentence. */
  function GapEnd(t: string, i: nat): Option<nat>
    requires i <= |t|
  {
    var j := SkipSpaces(t, i);
    if j > i && j < |t| && Starts(t[j]) then Some(j) else None
  }

  /**
   * The end of a cut that begins at `i`: as many markers as possible, white space, and a
   * character that starts a sentence; if that fails, one marker fewer, and so on.
   */
  function CutEnd(t: string, i: nat): (r: Option<nat>)
    requires i <= |t|
    ensures r.Some? ==> i < r.value < |t|
    decreases |t| - i
  {
    var m := MarkerEnd(t, SkipSpaces(t, i));
    if m.Some? && CutEnd(t, m.value).Some? then CutEnd(t, m.value) else GapEnd(t, i)
  }

  /** The end of the run of markers, with white space before them, that begins at `i`. */
  function RunEnd(t: string, i: nat): (j: nat)
    requires i <= |t|
    ensures i <= j <= |t|
    decreases |t| - i
  {
    var m := MarkerEnd(t, SkipSpaces(t, i));
    if m.Some? then RunEnd(t, m.value) else i
  }

  /** Nothing but markers, each with white space before it, from `i` to `j`. */
  predicate OnlyMarkers(t: string, i: nat, j: nat)
    requires i <= |t|
    decreases |t| - i
  {
    i == j || (var m := MarkerEnd(t, SkipSpaces(t, i)); m.Some? && m.value <= j && OnlyMarkers(t, m.value, j))
  }

  function CutAt(t: string, p: nat): Option<nat>
    requires p <= |t|
  {
    if p > 0 && Ends(t[p - 1]) then CutEnd(t, p) else None
  }

  lemma {:induction false} RunIsMarkers(t: string, i: nat)
    requires i <= |t|
    ensures OnlyMarkers(t, i, RunEnd(t, i))
    ensures RunEnd(t, i) > i ==> t[RunEnd(t, i) - 1] == ']'
    decreases |t| - i
  {
    hide IsSpace, IsLabel, IsDigit;
    var m := MarkerEnd(t, SkipSpaces(t, i));
    if m.Some? { RunIsMarkers(t, m.value); }
  }

  /** A gap without markers: white space up to the next sentence. */
  lemma GapIsClean(t: string, i: nat)
    requires i <= |t| && GapEnd(t, i).Some?
    ensures var e := GapEnd(t, i).value;
            i < e < |t| && Starts(t[e]) && IsSpace(t[e - 1]) && AllSpaces(t[i..e]) && e == SkipSpaces(t, i)
  {
    hide IsSpace, Starts;
    var e := SkipSpaces(t, i);
    assert t[i..e][e - i - 1] == t[e - 1];
  }

  lemma MarkersFromSpaces(t: string, i: nat, g: nat)
    requires i <= |t| && SkipSpaces(t, i) < g && OnlyMarkers(t, i, g)
    ensures OnlyMarkers(t, SkipSpaces(t, i), g)
  {
    hide IsSpace, IsLabel, IsDigit, MarkerEnd;
    var s := SkipSpaces(t, i);
    assert SkipSpaces(t, s) == s;
  }

  /** The next sentence begins inside the run of markers up to `g`, or after it with only white space between. */
  ghost predicate CleanCut(t: string, i: nat, e: nat, g: nat) {
    && i < e < |t| && g <= |t| && Starts(t[e]) && IsSpace(t[e - 1])
    && (if e < g then OnlyMarkers(t, e, g) else AllSpaces(t[g..e]))
  }

  lemma GapCut(t: string, i: nat)
    requires i <= |t| && GapEnd(t, i).Some?
    ensures CleanCut(t, i, GapEnd(t, i).value, RunEnd(t, i))
  {
    hide IsSpace, IsLabel, IsDigit, Starts, OnlyMarkers;
    GapIsClean(t, i);
    RunIsMarkers(t, i);
    var e, m := GapEnd(t, i).value, MarkerEnd(t, SkipSpaces(t, i));
    if m.Some? {
      assert RunEnd(t, i) == RunEnd(t, m.value) > e;
      MarkersFromSpaces(t, i, RunEnd(t, i));
    } else {
      assert RunEnd(t, i) == i;
    }
  }

  lemma {:induction false} CutIsClean(t: string, i: nat)
    requires i <= |t| && CutEnd(t, i).Some?
    ensures CleanCut(t, i, CutEnd(t, i).value, RunEnd(t, i))
    decreases |t| - i
  {
    hide IsSpace, Starts, OnlyMarkers, GapEnd, SkipSpaces, MarkerEnd;
    var m := MarkerEnd(t, SkipSpaces(t, i));
    if m.Some? && CutEnd(t, m.value).Some? {
      CutIsClean(t, m.value);
    } else {
      hide CleanCut;
      GapCut(t, i);
    }
  }

  lemma {:induction false} MarkersNeverEnd(t: string, i: nat, j: nat, k: nat)
    requires i <= k < j <= |t| && OnlyMarkers(t, i, j)
    ensures !Ends(t[k])
    decreases |t| - i
  {
    var s := SkipSpaces(t, i);
    var m := MarkerEnd(t, s).value;
    hide IsSpace, IsLabel, IsDigit, Ends;
    StartsAreNotSpaces(t[k]);
    if k < s {
      assert t[i..s][k - i] == t[k];
    } else if k < m {
      var name := t[s + 1..m - 1];
      assert t[k] == Bracket(name)[k - s];
      LabelCharacters(name);
    } else {
      MarkersNeverEnd(t, m, j, k);
    }
  }

  lemma LabelCharacters(m: string)
    requires IsLabel(m)
    ensures forall c | c in Bracket(m) :: c in "[]S" || IsDigit(c)
  {
    hide IsDigit;
    forall c | c in Bracket(m) ensures c in "[]S" || IsDigit(c) {
      assert m == [m[0]] + m[1..];
    }
  }

  // ---------------------------------------------------------------------------
  // The sentences
  // ---------------------------------------------------------------------------

  datatype Range = Range(start: nat, stop: nat)

  /** The sentences from `start` on, when the search for cuts has got to `pos`. */
  function Ranges(t: string, start: nat, pos: nat): seq<Range>
    decreases |t| + 1 - pos
  {
    if pos > |t| then (if start < |t| then [Range(start, |t|)] else [])
    else
      var e := CutAt(t, pos);
      if e.None? then Ranges(t, start, pos + 1)
      else [Range(start, RunEnd(t, pos))] + Ranges(t, e.value, e.value)
  }

  predicate Fits(t: string, r: Range) {
    r.start < r.stop <= |t| && !IsSpace(t[r.start]) && !IsSpace(t[r.stop - 1])
  }

  /** One sentence and the next: in order, nothing but white space lost, nothing but markers shared. */
  ghost predicate Follows(t: string, r: Range, s: Range)
    requires Fits(t, r) && Fits(t, s)
  {
    && r.start < s.start && r.stop <= s.stop
    && IsSpace(t[s.start - 1])
    && (if s.start < r.stop then OnlyMarkers(t, s.start, r.stop) else AllSpaces(t[r.stop..s.start]))
    && (exists p :: r.start <= p < r.stop && p < s.start && Ends(t[p]))
  }

  ghost predicate Chained(t: string, rs: seq<Range>) {
    && (forall r | r in rs :: Fits(t, r))
    && (forall k | 0 < k < |rs| :: Follows(t, rs[k - 1], rs[k]))
  }

  lemma {:induction false} RangesChain(t: string, start: nat, pos: nat)
    requires IsStripped(t) && start < |t| && start <= pos <= |t| + 1
    requires !IsSpace(t[start])
    requires start > 0 ==> IsSpace(t[start - 1])
    ensures var rs := Ranges(t, start, pos);
            && Chained(t, rs) && rs != [] && rs[0].start == start && rs[|rs| - 1].stop == |t|
            && rs[0].stop <= |t| && (exists p :: start <= p < rs[0].stop && (p == |t| - 1 || Ends(t[p])))
    decreases |t| + 1 - pos
  {
    hide IsSpace, Starts, Ends, IsLabel, CutEnd, RunEnd, OnlyMarkers;
    if pos > |t| {
      assert t[|t| - 1] == t[|t| - 1];
    } else {
      var e := CutAt(t, pos);
      if e.None? {
        RangesChain(t, start, pos + 1);
      } else {
        CutIsClean(t, pos);
        StartsAreNotSpaces(t[e.value]);
        StartsAreNotSpaces(t[pos - 1]);
        assert pos - 1 >= start;
        RunIsMarkers(t, pos);
        assert !IsSpace(']') by { MarkerPunctuation(']'); }
        RangesChain(t, e.value, e.value);
        var r, rs := Range(start, RunEnd(t, pos)), Ranges(t, e.value, e.value);
        assert Ends(t[pos - 1]);
        LinkHolds(t, r, rs[0], pos - 1);
        ChainGrows(t, r, rs);
      }
    }
  }

  lemma LinkHolds(t: string, r: Range, s: Range, p: nat)
    requires Fits(t, r) && Fits(t, s)
    requires r.start <= p < r.stop && p < s.start && Ends(t[p]) && IsSpace(t[s.start - 1])
    requires if s.start < r.stop then OnlyMarkers(t, s.start, r.stop) else AllSpaces(t[r.stop..s.start])
    requires exists q :: s.start <= q < s.stop && (q == |t| - 1 || Ends(t[q]))
    ensures Follows(t, r, s)
  {
    hide IsSpace, Ends, OnlyMarkers;
    var q :| s.start <= q < s.stop && (q == |t| - 1 || Ends(t[q]));
    if q != |t| - 1 && q < r.stop {
      MarkersNeverEnd(t, s.start, r.stop, q);
    }
  }

  lemma ChainGrows(t: string, r: Range, rs: seq<Range>)
    requires rs != [] && Fits(t, r) && Chained(t, rs) && Follows(t, r, rs[0])
    ensures Chained(t, [r] + rs)
  {
    hide Fits, Follows;
    var all := [r] + rs;
    forall k | 0 < k < |all| ensures Follows(t, all[k - 1], all[k]) {
      if k > 1 { assert all[k - 1] == rs[k - 2] && all[k] == rs[k - 1]; }
    }
  }

  function Slices(t: string, rs: seq<Range>): seq<string>
    requires forall r | r in rs :: Fits(t, r)
  {
    if rs == [] then []
    else
      assert Fits(t, rs[0]);
      [t[rs[0].start..rs[0].stop]] + Slices(t, rs[1..])
  }

  /** The ranges of a text's sentences, after white space around the text has been cut off. */
  function SentenceRanges(t: string): seq<Range> {
    if t == [] then [] else Ranges(t, 0, 0)
  }

  lemma SentencesChain(t: string)
    requires IsStripped(t)
    ensures Chained(t, SentenceRanges(t))
    ensures t != [] ==> SentenceRanges(t) != [] && SentenceRanges(t)[0].start == 0
                        && SentenceRanges(t)[|SentenceRanges(t)| - 1].stop == |t|
  {
    if t != [] { RangesChain(t, 0, 0); }
  }

  ghost function SentencesOf(text: string): seq<string> {
    StripIsStripped(text);
    SentencesChain(Strip(text));
    Slices(Strip(text), SentenceRanges(Strip(text)))
  }

  // ---------------------------------------------------------------------------
  // Nothing is lost
  // ---------------------------------------------------------------------------

  ghost predicate Covers(rs: seq<Range>, i: nat) {
    exists k :: 0 <= k < |rs| && rs[k].start <= i < rs[k].stop
  }

  lemma {:induction false} ChainCovers(t: string, rs: seq<Range>, i: nat)
    requires Chained(t, rs) && rs != [] && rs[|rs| - 1].stop == |t|
    requires rs[0].start <= i < |t| && !IsSpace(t[i])
    ensures Covers(rs, i)
  {
    hide IsSpace, Ends, OnlyMarkers;
    assert Fits(t, rs[0]);
    if i >= rs[0].stop {
      assert |rs| > 1 && Fits(t, rs[1]) && Follows(t, rs[0], rs[1]);
      ChainTail(t, rs);
      ChainCovers(t, rs[1..], i);
      var k :| 0 <= k < |rs[1..]| && rs[1..][k].start <= i < rs[1..][k].stop;
      assert rs[k + 1] == rs[1..][k];
    }
  }

  lemma ChainTail(t: string, rs: seq<Range>)
    requires Chained(t, rs) && rs != []
    ensures Chained(t, rs[1..])
  {
    hide Fits, Follows;
    var tail := rs[1..];
    forall k | 0 < k < |tail| ensures Follows(t, tail[k - 1], tail[k]) {
      assert tail[k - 1] == rs[k] && tail[k] == rs[k + 1];
    }
  }

  lemma {:induction false} ChainRises(t: string, rs: seq<Range>, k: nat, l: nat)
    requires Chained(t, rs) && k <= l < |rs|
    ensures rs[k].start <= rs[l].start && rs[k].stop <= rs[l].stop
    decreases l
  {
    hide IsSpace, Ends, OnlyMarkers;
    if k < l {
      assert Follows(t, rs[l - 1], rs[l]);
      ChainRises(t, rs, k, l - 1);
    }
  }

  /** Sentences that are not next to each other never overlap. */
  lemma FarSentencesDisjoint(t: string, rs: seq<Range>, k: nat, l: nat)
    requires Chained(t, rs) && k + 2 <= l < |rs|
    ensures rs[k].stop <= rs[l].start
  {
    hide IsSpace, Ends, OnlyMarkers;
    var r, s, u := rs[k], rs[k + 1], rs[k + 2];
    assert Follows(t, r, s) && Follows(t, s, u);
    var p :| s.start <= p < s.stop && p < u.start && Ends(t[p]);
    if p < r.stop {
      MarkersNeverEnd(t, s.start, r.stop, p);
    }
    ChainRises(t, rs, k + 2, l);
  }

  /**
   * The splitter loses nothing: the sentences are slices in order; every character that is not
   * white space lies in one of them; only neighbours overlap, and then in markers and white space only.
   */
  lemma SplittingIsLossless(text: string)
    ensures var t, rs := Strip(text), SentenceRanges(Strip(text));
      && Chained(t, rs)
      && SentencesOf(text) == Slices(t, rs)
      && (forall i | 0 <= i < |t| && !IsSpace(t[i]) :: Covers(rs, i))
      && (forall k, l | 0 <= k && k + 2 <= l < |rs| :: rs[k].stop <= rs[l].start)
      && (forall k | 0 < k < |rs| && rs[k].start < rs[k - 1].stop :: OnlyMarkers(t, rs[k].start, rs[k - 1].stop))
  {
    StripIsStripped(text);
    var t, rs := Strip(text), SentenceRanges(Strip(text));
    SentencesChain(t);
    hide IsSpace, Strip, SentenceRanges, Ends, OnlyMarkers;
    forall i | 0 <= i < |t| && !IsSpace(t[i]) ensures Covers(rs, i) {
      ChainCovers(t, rs, i);
    }
    forall k, l | 0 <= k && k + 2 <= l < |rs| ensures rs[k].stop <= rs[l].start {
      FarSentencesDisjoint(t, rs, k, l);
    }
    forall k | 0 < k < |rs| && rs[k].start < rs[k - 1].stop ensures OnlyMarkers(t, rs[k].start, rs[k - 1].stop) {
      assert Follows(t, rs[k - 1], rs[k]);
    }
  }

  function NonEmpty(parts: seq<string>): seq<string> {
    if parts == [] then []
    else (if parts[0] == [] then [] else [parts[0]]) + NonEmpty(parts[1..])
  }

  lemma {:induction false} SlicesConcat(t: string, a: seq<Range>, b: seq<Range>)
    requires forall r | r in a + b :: Fits(t, r)
    ensures (forall r | r in a :: Fits(t, r)) && (forall r | r in b :: Fits(t, r))
    ensures Slices(t, a + b) == Slices(t, a) + Slices(t, b)
  {
    hide Fits;
    assert forall r | r in a :: r in a + b;
    assert forall r | r in b :: r in a + b;
    if a == [] {
      assert a + b == b;
    } else {
      assert (a + b)[1..] == a[1..] + b;
      SlicesConcat(t, a[1..], b);
    }
  }

  lemma {:induction false} SlicesNotEmpty(t: string, rs: seq<Range>)
    requires forall r | r in rs :: Fits(t, r)
    ensures NonEmpty(Slices(t, rs)) == Slices(t, rs)
  {
    hide IsSpace;
    if rs != [] {
      assert Fits(t, rs[0]);
      SlicesNotEmpty(t, rs[1..]);
    }
  }

  lemma SliceIsStripped(t: string, r: Range)
    requires Fits(t, r)
    ensures Strip(t[r.start..r.stop]) == t[r.start..r.stop] && t[r.start..r.stop] != []
  {
    hide IsSpace;
    StripKeepsStripped(t[r.start..r.stop]);
  }

  /** The scan stands at `pos` inside a sentence that began at `start`. */
  predicate InSentence(t: string, start: nat, pos: nat) {
    && start < |t| && start <= pos <= |t| + 1
    && !IsSpace(t[start]) && (start > 0 ==> IsSpace(t[start - 1]))
  }

  lemma ScanStep(t: string, start: nat, pos: nat)
    requires IsStripped(t) && InSentence(t, start, pos) && pos <= |t|
    ensures CutAt(t, pos).None? ==> InSentence(t, start, pos + 1) && Ranges(t, start, pos) == Ranges(t, start, pos + 1)
    ensures CutAt(t, pos).Some? ==>
              var e, r := CutAt(t, pos).value, Range(start, RunEnd(t, pos));
              && InSentence(t, e, e) && Fits(t, r) && Strip(t[r.start..r.stop]) == t[r.start..r.stop]
              && Ranges(t, start, pos) == [r] + Ranges(t, e, e) && pos < e <= |t|
  {
    RangesChain(t, start, pos);
    hide IsSpace, Starts, Ends, IsLabel, CutEnd, RunEnd, OnlyMarkers, Strip;
    if CutAt(t, pos).Some? {
      var e, r := CutAt(t, pos).value, Range(start, RunEnd(t, pos));
      assert Ranges(t, start, pos)[0] == r;
      CutIsClean(t, pos);
      StartsAreNotSpaces(t[e]);
      SliceIsStripped(t, r);
    }
  }

  lemma LastSentence(t: string, start: nat, pos: nat)
    requires IsStripped(t) && InSentence(t, start, pos) && pos > |t|
    ensures var r := Range(start, |t|);
            && Fits(t, r) && Strip(t[start..]) == t[start..|t|] && t[start..|t|] != []
            && Ranges(t, start, pos) == [r]
  {
    RangesChain(t, start, pos);
    hide IsSpace, Strip;
    SliceIsStripped(t, Range(start, |t|));
    assert t[start..] == t[start..|t|];
  }

  lemma SlicesSnoc(t: string, rs: seq<Range>, r: Range)
    requires Fits(t, r) && forall x | x in rs :: Fits(t, x)
    ensures (forall x | x in rs + [r] :: Fits(t, x)) && Slices(t, rs + [r]) == Slices(t, rs) + [t[r.start..r.stop]]
  {
    SentenceBounds(t, r);
    hide Fits;
    SlicesConcat(t, rs, [r]);
    assert Slices(t, [r]) == [t[r.start..r.stop]] + Slices(t, [r][1..]);
  }

  /** Scans for cuts; the markers right after the punctuation stay with the sentence before the cut. */
  method SplitSentences(text: string) returns (out: seq<string>)
    ensures out == SentencesOf(text)
  {
    hide IsSpace, Strip, Ranges, IsStripped, InSentence, Fits, Chained, CutAt, RunEnd, Slices;
    StripIsStripped(text);
    var t := Strip(text);
    SentencesChain(t);
    out := [];
    NoSlices(t);
    if t == [] { return; }
    FirstSentence(t);
    var start, pos := 0, 0;
    ghost var done: seq<Range> := [];
    assert done + Ranges(t, 0, 0) == Ranges(t, 0, 0);
    while pos <= |t|
      invariant 0 <= start <= pos && InSentence(t, start, pos)
      invariant Ranges(t, 0, 0) == done + Ranges(t, start, pos)
      invariant forall r | r in done :: Fits(t, r)
      invariant out == Slices(t, done)
      decreases |t| + 1 - pos
    {
      ScanStep(t, start, pos);
      var e := CutAt(t, pos);
      if e.None? {
        pos := pos + 1;
        continue;
      }
      var end := RunEnd(t, pos);
      SentenceBounds(t, Range(start, end));
      out := out + [Strip(t[start..end])];
      SlicesSnoc(t, done, Range(start, end));
      done := done + [Range(start, end)];
      start, pos := e.value, e.value;
    }
    LastSentence(t, start, pos);
    SentenceBounds(t, Range(start, |t|));
    var tail := Strip(t[start..]);
    if tail != [] { out := out + [tail]; }
    SlicesSnoc(t, done, Range(start, |t|));
    SlicesNotEmpty(t, done + [Range(start, |t|)]);
    out := NonEmpty(out);
  }

  lemma NoSlices(t: string)
    ensures Slices(t, []) == []
  {
  }

  lemma FirstSentence(t: string)
    requires IsStripped(t) && t != []
    ensures InSentence(t, 0, 0)
  {
  }

  lemma SentenceBounds(t: string, r: Range)
    requires Fits(t, r)
    ensures r.start < r.stop <= |t|
  {
    hide IsSpace;
  }

  // ---------------------------------------------------------------------------
  // No marker is lost
  // ---------------------------------------------------------------------------

  lemma {:induction false} SlicesAre(t: string, rs: seq<Range>)
    requires forall r | r in rs :: Fits(t, r)
    ensures |Slices(t, rs)| == |rs|
    ensures forall k | 0 <= k < |rs| :: Fits(t, rs[k]) && Slices(t, rs)[k] == t[rs[k].start..rs[k].stop]
  {
    hide Fits;
    if rs != [] {
      SlicesAre(t, rs[1..]);
      assert forall k | 0 < k < |rs| :: rs[k] == rs[1..][k - 1];
      assert Fits(t, rs[0]);
    }
  }

  /** A marker holds no white space, so it lies wholly in the last sentence that begins no later than it does. */
  lemma MarkerInOneRange(t: string, rs: seq<Range>, i: nat, m: string) returns (k: nat)
    requires Chained(t, rs) && rs != [] && rs[0].start == 0 && rs[|rs| - 1].stop == |t|
    requires IsLabel(m) && Occurs(t, i, Bracket(m))
    ensures k < |rs| && rs[k].start <= i && i + |Bracket(m)| <= rs[k].stop
  {
    hide IsSpace, IsLabel, Ends, OnlyMarkers, Follows;
    var j := i + |Bracket(m)|;
    forall l | i <= l < j ensures !IsSpace(t[l]) {
      assert t[l] == Bracket(m)[l - i];
      LabelCharacters(m);
      if IsDigit(t[l]) { DigitsAreNotSpaces(t[l]); } else { MarkerPunctuation(t[l]); }
    }
    ChainCovers(t, rs, i);
    k :| 0 <= k < |rs| && rs[k].start <= i < rs[k].stop;
    while k + 1 < |rs| && rs[k + 1].start <= i
      invariant k < |rs| && rs[k].start <= i < rs[k].stop
      decreases |rs| - k
    {
      ChainRises(t, rs, k, k + 1);
      k := k + 1;
    }
    assert Fits(t, rs[k]);
    if k + 1 < |rs| {
      assert Fits(t, rs[k + 1]);
      StopsBeforeGap(t, rs[k], rs[k + 1], i, j);
    }
  }

  lemma StopsBeforeGap(t: string, r: Range, s: Range, i: nat, j: nat)
    requires Fits(t, r) && Fits(t, s) && Follows(t, r, s)
    requires r.start <= i < r.stop && i < j <= |t| && i < s.start
    requires forall l | i <= l < j :: !IsSpace(t[l])
    ensures j <= r.stop
  {
    hide IsSpace, Ends, OnlyMarkers;
    if s.start > r.stop {
      assert t[r.stop..s.start][0] == t[r.stop];
      assert IsSpace(t[r.stop]);
    } else {
      assert IsSpace(t[s.start - 1]);
    }
  }

  lemma SentenceHasMarker(text: string, m: string) returns (s: string)
    requires m in MarkersOf(text)
    ensures s in SentencesOf(text) && m in MarkersOf(s)
  {
    var t, rs := Strip(text), SentenceRanges(Strip(text));
    StripIsStripped(text);
    StripMarkers(text);
    SentencesChain(t);
    MarkersAreOccurrences(t, m);
    hide IsSpace, Strip, SentenceRanges, Follows, IsLabel, Scan;
    SlicesAre(t, rs);
    var i: nat :| Occurs(t, i, Bracket(m));
    var k := MarkerInOneRange(t, rs, i, m);
    s := SentencesOf(text)[k];
    OccursInSlice(t, rs[k].start, rs[k].stop, i, Bracket(m));
    MarkersAreOccurrences(s, m);
  }

  lemma OccursInSlice(t: string, a: nat, b: nat, i: nat, w: string)
    requires a <= i && i + |w| <= b <= |t| && Occurs(t, i, w)
    ensures Contains(t[a..b], w)
  {
    var x := t[a..b][i - a..i - a + |w|];
    forall k | 0 <= k < |w| ensures x[k] == w[k] {
      assert t[i..i + |w|][k] == t[i + k];
    }
    assert x == w;
    assert Occurs(t[a..b], i - a, w);
  }

  lemma SentenceIsSlice(text: string, s: string)
    requires s in SentencesOf(text)
    ensures (forall m | m in MarkersOf(s) :: m in MarkersOf(text))
    ensures Wedged(IDLE, s) <= Wedged(IDLE, text)
  {
    var t, rs := Strip(text), SentenceRanges(Strip(text));
    StripIsStripped(text);
    StripMarkers(text);
    SentencesChain(t);
    hide IsSpace, Strip, SentenceRanges, Follows, Scan, Wedged;
    SlicesAre(t, rs);
    var k :| 0 <= k < |rs| && SentencesOf(text)[k] == s;
    SliceMarkers(t, rs[k].start, rs[k].stop);
  }

  /** The sentences hold exactly the markers of the text: no citation is lost at a cut, none appears. */
  lemma SentenceMarkers(text: string)
    ensures forall m :: m in MarkersOf(text) <==> exists s :: s in SentencesOf(text) && m in MarkersOf(s)
  {
    hide MarkersOf, SentencesOf;
    forall m ensures m in MarkersOf(text) <==> exists s :: s in SentencesOf(text) && m in MarkersOf(s) {
      if m in MarkersOf(text) { var s := SentenceHasMarker(text, m); }
      if s :| s in SentencesOf(text) && m in MarkersOf(s) { SentenceIsSlice(text, s); }
    }
  }
}
