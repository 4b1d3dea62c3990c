/** The line patterns that open the parts of a section, and the pattern at which a part ends. */
module StatutePatterns {
  import opened Wrappers
  import opened Text

  datatype Kind = Subsection | Proviso | Explanation | Illustration

  predicate LineStart(t: string, i: nat)
    requires i <= |t|
  {
    i == 0 || t[i - 1] == '\n'
  }

  predicate IsLetter(c: char) {
    'a' <= c <= 'z' || 'A' <= c <= 'Z'
  }

  // ---------------------------------------------------------------------------
  // What follows the white space at the start of the line
  // ---------------------------------------------------------------------------

  /** `(12A)` and one white-space character. */
  function NumberEnd(t: string, c: nat): (e: Option<nat>)
    requires c <= |t|
    ensures e.Some? ==> c < e.value <= |t|
  {
    if c < |t| && t[c] == '(' then
      var j := DigitsEnd(t, c + 1);
      var k := if j < |t| && IsLetter(t[j]) then j + 1 else j;
      if j > c + 1 && k + 1 < |t| && t[k] == ')' && IsSpace(t[k + 1]) then Some(k + 2) else None
    else None
  }

  /** A word and at least one white-space character: where what follows them begins. */
  function WordGap(t: string, i: nat, w: string): (j: Option<nat>)
    ensures j.Some? ==> i + |w| < j.value <= |t|
  {
    if FoldsAt(t, i, w) && SkipSpaces(t, i + |w|) > i + |w| then Some(SkipSpaces(t, i + |w|)) else None
  }

  function ThatEnd(t: string, i: nat): (e: Option<nat>)
    ensures e.Some? ==> i < e.value <= |t|
  {
    if WordAt(t, i, "that") then Some(i + 4) else None
  }

  /** `Provided that`, `Provided further that` or `Provided also that`. */
  function ProvisoEnd(t: string, c: nat): (e: Option<nat>)
    ensures e.Some? ==> c < e.value <= |t|
  {
    var s := WordGap(t, c, "provided");
    if s.None? then None
    else
      var f, a := WordGap(t, s.value, "further"), WordGap(t, s.value, "also");
      if f.Some? then ThatEnd(t, f.value)
      else if a.Some? then ThatEnd(t, a.value)
      else ThatEnd(t, s.value)
  }

  /** The full stop after `Explanation`, or after its number. */
  function ExplanationDot(t: string, c: nat): (d: Option<nat>)
    ensures d.Some? ==> c + 11 <= d.value < |t| && t[d.value] == '.'
  {
    if !FoldsAt(t, c, "explanation") then None
    else if c + 11 < |t| && t[c + 11] == '.' then Some(c + 11)
    else
      var s := SkipSpaces(t, c + 11);
      var j := DigitsEnd(t, s);
      if s > c + 11 && j > s && j < |t| && t[j] == '.' then Some(j) else None
  }

  predicate IsDash(c: char) {
    c == '\U{2014}' || c == '-' || c == ':'
  }

  /** The heading of an explanation, with the white space and the dash after its full stop. */
  function ExplanationEnd(t: string, c: nat): (e: Option<nat>)
    ensures e.Some? ==> c < e.value <= |t|
  {
    var d := ExplanationDot(t, c);
    if d.None? then None
    else
      var x := SkipSpaces(t, d.value + 1);
      Some(if x < |t| && IsDash(t[x]) then x + 1 else x)
  }

  function IllustrationEnd(t: string, c: nat): (e: Option<nat>)
    ensures e.Some? ==> c < e.value <= |t|
  {
    if !FoldsAt(t, c, "illustration") then None
    else
      var k := if c + 12 < |t| && Lower(t[c + 12]) == 's' then c + 13 else c + 12;
      if k < |t| && t[k] == '.' then Some(k + 1) else None
  }

  function ContentEnd(kind: Kind, t: string, c: nat): (e: Option<nat>)
    requires c <= |t|
    ensures e.Some? ==> c < e.value <= |t|
  {
    match kind
    case Subsection => NumberEnd(t, c)
    case Proviso => ProvisoEnd(t, c)
    case Explanation => ExplanationEnd(t, c)
    case Illustration => IllustrationEnd(t, c)
  }

  /** Where a part of the given kind that begins at `i` has read its opening words. */
  function MatchEnd(kind: Kind, t: string, i: nat): (e: Option<nat>)
    requires i <= |t|
    ensures e.Some? ==> i < e.value <= |t|
  {
    if LineStart(t, i) then ContentEnd(kind, t, SkipSpaces(t, i)) else None
  }

  /** The words at which any part ends: looser than the words with which one begins. */
  predicate EndsPart(t: string, c: nat)
    requires c <= |t|
  {
    NumberEnd(t, c).Some? || WordAt(t, c, "provided") || ExplanationDot(t, c).Some? || FoldsAt(t, c, "illustration")
  }

  predicate BoundaryAt(t: string, i: nat)
    requires i <= |t|
  {
    LineStart(t, i) && EndsPart(t, SkipSpaces(t, i))
  }

  /** `b` is the first boundary. */
  ghost predicate IsNextBoundary(t: string, b: Option<nat>) {
    match b
    case None => forall i | 0 <= i <= |t| :: !BoundaryAt(t, i)
    case Some(n) => n <= |t| && BoundaryAt(t, n) && forall i | 0 <= i < n :: !BoundaryAt(t, i)
  }

  method NextBoundary(t: string) returns (b: Option<nat>)
    ensures IsNextBoundary(t, b)
  {
    hide BoundaryAt;
    for i := 0 to |t| + 1
      invariant forall j | 0 <= j < i :: !BoundaryAt(t, j)
    {
      if BoundaryAt(t, i) { return Some(i); }
    }
    b := None;
  }

  // ---------------------------------------------------------------------------
  // How the patterns relate
  // ---------------------------------------------------------------------------

  lemma {:induction false} SkipWithin(t: string, i: nat, j: nat)
    requires i <= |t| && i <= j <= SkipSpaces(t, i)
    ensures SkipSpaces(t, j) == SkipSpaces(t, i)
    decreases j - i
  {
    if i < j { SkipWithin(t, i + 1, j); }
  }

  lemma {:induction false} SkipShifts(t: string, e: nat, i: nat)
    requires e <= i <= |t|
    ensures SkipSpaces(t[e..], i - e) == SkipSpaces(t, i) - e
    decreases |t| - i
  {
    if i < |t| && IsSpace(t[i]) { SkipShifts(t, e, i + 1); }
  }

  lemma {:induction false} DigitsShift(t: string, e: nat, i: nat)
    requires e <= i <= |t|
    ensures DigitsEnd(t[e..], i - e) == DigitsEnd(t, i) - e
    decreases |t| - i
  {
    if i < |t| && IsDigit(t[i]) { DigitsShift(t, e, i + 1); }
  }

  lemma FoldsShift(t: string, e: nat, i: nat, w: string)
    requires e <= i
    ensures e <= |t| ==> (FoldsAt(t[e..], i - e, w) <==> FoldsAt(t, i, w))
  {
    if e <= |t| && FoldsAt(t[e..], i - e, w) {
      forall k | 0 <= k < |w| ensures Lower(t[i + k]) == w[k] {
        assert Lower(t[e..][i - e + k]) == w[k];
      }
    }
  }

  lemma SpaceEndsWord(c: char)
    requires IsSpace(c)
    ensures !IsWord(c) && !IsDigit(c)
  {
    if IsDigit(c) { DigitsAreNotSpaces(c); }
  }

  /** The opening words of any part are words at which a part ends. */
  lemma OpeningEndsPart(kind: Kind, t: string, c: nat)
    requires c <= |t| && ContentEnd(kind, t, c).Some?
    ensures EndsPart(t, c)
  {
    hide IsSpace, FoldsAt, NumberEnd, IsWord, ThatEnd, IsDigit;
    if kind == Proviso {
      assert WordGap(t, c, "provided").Some?;
      var s := SkipSpaces(t, c + 8);
      assert t[c + 8..s][0] == t[c + 8];
      SpaceEndsWord(t[c + 8]);
    }
  }

  lemma NumberShifts(t: string, e: nat, c: nat)
    requires e <= c <= |t| && NumberEnd(t, c).Some?
    ensures NumberEnd(t[e..], c - e).Some?
  {
    hide IsSpace, IsDigit, IsLetter;
    DigitsShift(t, e, c + 1);
  }

  lemma DotShifts(t: string, e: nat, c: nat)
    requires e <= c <= |t| && ExplanationDot(t, c).Some?
    ensures ExplanationDot(t[e..], c - e).Some?
  {
    hide IsSpace, IsDigit, FoldsAt;
    FoldsFits(t, c, "explanation");
    FoldsShift(t, e, c, "explanation");
    SkipShifts(t, e, c + 11);
    DigitsShift(t, e, SkipSpaces(t, c + 11));
  }

  lemma WordShifts(t: string, e: nat, c: nat, w: string)
    requires e <= c <= |t| && WordAt(t, c, w)
    ensures WordAt(t[e..], c - e, w)
  {
    hide IsWord, FoldsAt;
    FoldsFits(t, c, w);
    FoldsShift(t, e, c, w);
  }

  /** Ending words are seen the same in a slice that begins at or before them. */
  lemma EndingShifts(t: string, e: nat, c: nat)
    requires e <= c <= |t| && EndsPart(t, c)
    ensures EndsPart(t[e..], c - e)
  {
    hide FoldsAt, NumberEnd, ExplanationDot, WordAt;
    if NumberEnd(t, c).Some? { NumberShifts(t, e, c); }
    if WordAt(t, c, "provided") { WordShifts(t, e, c, "provided"); }
    if ExplanationDot(t, c).Some? { DotShifts(t, e, c); }
    FoldsShift(t, e, c, "illustration");
  }

  lemma FoldsFits(t: string, i: nat, w: string)
    requires FoldsAt(t, i, w)
    ensures i + |w| <= |t|
  {
  }

  /**
   * A part that begins at `q`, and whose words begin at or after `e`, is a boundary for whatever is read from
   * `e` on.
   */
  lemma OpeningIsBoundary(kind: Kind, t: string, q: nat, e: nat)
    requires q <= |t| && MatchEnd(kind, t, q).Some? && e <= SkipSpaces(t, q)
    ensures var x := if q < e then e else q;
            x <= SkipSpaces(t, q) && BoundaryAt(t[e..], x - e)
  {
    hide ContentEnd, EndsPart, SkipSpaces, MatchEnd, LineStart, IsSpace;
    var x, c := if q < e then e else q, SkipSpaces(t, q);
    MatchMeans(kind, t, q);
    SkipWithin(t, q, x);
    SkipShifts(t, e, x);
    OpeningEndsPart(kind, t, c);
    EndingShifts(t, e, c);
    LineShifts(t, e, x);
  }

  lemma MatchMeans(kind: Kind, t: string, q: nat)
    requires q <= |t| && MatchEnd(kind, t, q).Some?
    ensures LineStart(t, q) && ContentEnd(kind, t, SkipSpaces(t, q)).Some?
  {
    hide ContentEnd, IsSpace;
  }

  /** A slice begins a line of its own. */
  lemma LineShifts(t: string, e: nat, x: nat)
    requires e <= x <= |t| && (x > e ==> LineStart(t, x))
    ensures LineStart(t[e..], x - e)
  {
    if x > e { assert t[e..][x - e - 1] == t[x - 1]; }
  }

  /** The character that opens a part, in lower case. */
  function LeadOf(kind: Kind): char {
    match kind
    case Subsection => '('
    case Proviso => 'p'
    case Explanation => 'e'
    case Illustration => 'i'
  }

  lemma ContentLeads(kind: Kind, t: string, c: nat)
    requires c <= |t| && ContentEnd(kind, t, c).Some?
    ensures c < |t| && Lower(t[c]) == LeadOf(kind)
  {
    hide IsSpace, IsDigit, IsWord, SkipSpaces, DigitsEnd, ThatEnd;
    match kind
    case Subsection =>
    case Proviso => assert Lower(t[c + 0]) == "provided"[0];
    case Explanation => assert Lower(t[c + 0]) == "explanation"[0];
    case Illustration => assert Lower(t[c + 0]) == "illustration"[0];
  }

  ghost predicate Leads(t: string, y: nat) {
    y < |t| && exists k: Kind :: Lower(t[y]) == LeadOf(k)
  }

  /** Spaces up to `y`, where something other than a space stands. */
  lemma SkipAcross(t: string, i: nat, q: nat)
    requires i <= |t| && i <= q <= SkipSpaces(t, i)
    ensures SkipSpaces(t, q) == SkipSpaces(t, i)
  {
    SkipWithin(t, i, q);
  }

  lemma NewlineIsSpace()
    ensures IsSpace('\n') && Lower('\n') == '\n' && !IsDigit('\n') && !IsLetter('\n') && !IsDash('\n')
  {
  }

  lemma NoBreakInWord(t: string, i: nat, w: string, x: nat)
    requires FoldsAt(t, i, w) && i <= x < i + |w| && '\n' !in w
    ensures t[x] != '\n'
  {
    assert Lower(t[i + (x - i)]) == w[x - i];
  }

  /**
   * Inside the opening words of a part, the first thing on a later line is the rest of those words, which
   * opens no part; or there is only white space to the end of the opening.
   */
  lemma InnerLines(kind: Kind, t: string, c: nat, q: nat)
    requires c < q <= |t| && ContentEnd(kind, t, c).Some? && t[q - 1] == '\n'
    requires q < ContentEnd(kind, t, c).value
    ensures SkipSpaces(t, q) >= ContentEnd(kind, t, c).value || !Leads(t, SkipSpaces(t, q))
  {
    hide Leads;
    match kind
    case Subsection => NumberHasNoBreaks(t, c, q - 1);
    case Proviso => InnerProviso(t, c, q);
    case Explanation => InnerExplanation(t, c, q);
    case Illustration => IllustrationHasNoBreaks(t, c, q - 1);
  }

  lemma NumberHasNoBreaks(t: string, c: nat, x: nat)
    requires c <= |t| && NumberEnd(t, c).Some? && c <= x && x + 1 < NumberEnd(t, c).value
    ensures t[x] != '\n'
  {
    hide IsSpace, IsDigit, IsLetter;
    NewlineIsSpace();
    var j := DigitsEnd(t, c + 1);
    if c < x < j { DigitsHaveNoBreaks(t, c + 1, x); }
  }

  lemma DigitsHaveNoBreaks(t: string, i: nat, x: nat)
    requires i <= |t| && i <= x < DigitsEnd(t, i)
    ensures t[x] != '\n'
  {
    hide IsDigit;
    NewlineIsSpace();
    assert t[i..DigitsEnd(t, i)][x - i] == t[x];
  }

  lemma IllustrationHasNoBreaks(t: string, c: nat, x: nat)
    requires c <= |t| && IllustrationEnd(t, c).Some? && c <= x < IllustrationEnd(t, c).value
    ensures t[x] != '\n'
  {
    hide FoldsAt;
    if x < c + 12 { NoBreakInWord(t, c, "illustration", x); }
  }

  lemma FoldedFirst(t: string, i: nat, w: string)
    requires FoldsAt(t, i, w) && w != []
    ensures i < |t| && Lower(t[i]) == w[0]
  {
    assert Lower(t[i + 0]) == w[0];
  }

  lemma OtherLetters(t: string, y: nat)
    requires y < |t| && Lower(t[y]) in "fat"
    ensures !Leads(t, y)
  {
    forall k: Kind ensures Lower(t[y]) != LeadOf(k) {
    }
  }

  lemma InGap(t: string, i: nat, w: string, q: nat)
    requires WordGap(t, i, w).Some? && '\n' !in w && i < q < WordGap(t, i, w).value && q <= |t| && t[q - 1] == '\n'
    ensures SkipSpaces(t, q) == WordGap(t, i, w).value
  {
    hide FoldsAt, IsSpace;
    if q - 1 < i + |w| {
      NoBreakInWord(t, i, w, q - 1);
    } else {
      SkipAcross(t, i + |w|, q);
    }
  }

  lemma AfterGap(t: string, i: nat, w: string)
    requires WordGap(t, i, w).Some?
    ensures SkipSpaces(t, WordGap(t, i, w).value) == WordGap(t, i, w).value
  {
    hide FoldsAt, IsSpace;
    SkipAcross(t, i + |w|, WordGap(t, i, w).value);
  }

  lemma InnerProviso(t: string, c: nat, q: nat)
    requires c < q <= |t| && ProvisoEnd(t, c).Some? && t[q - 1] == '\n' && q < ProvisoEnd(t, c).value
    ensures !Leads(t, SkipSpaces(t, q))
  {
    hide Leads, IsSpace, IsDigit, IsWord, FoldsAt, SkipSpaces;
    var s := WordGap(t, c, "provided").value;
    var f, a := WordGap(t, s, "further"), WordGap(t, s, "also");
    if q <= s {
      if q < s { InGap(t, c, "provided", q); } else { AfterGap(t, c, "provided"); }
      if f.Some? { FoldedFirst(t, s, "further"); }
      else if a.Some? { FoldedFirst(t, s, "also"); }
      else { FoldedFirst(t, s, "that"); }
      OtherLetters(t, s);
    } else if f.Some? {
      InnerThat(t, s, "further", q);
    } else if a.Some? {
      InnerThat(t, s, "also", q);
    } else {
      NoBreakInWord(t, s, "that", q - 1);
    }
  }

  lemma InnerThat(t: string, s: nat, w: string, q: nat)
    requires WordGap(t, s, w).Some? && '\n' !in w
    requires s < q <= |t| && t[q - 1] == '\n' && q < WordGap(t, s, w).value + 4
    requires FoldsAt(t, WordGap(t, s, w).value, "that")
    ensures !Leads(t, SkipSpaces(t, q))
  {
    hide Leads, IsSpace, IsDigit, IsWord, FoldsAt, SkipSpaces, WordGap;
    var y := WordGap(t, s, w).value;
    if q <= y {
      if q < y { InGap(t, s, w, q); } else { AfterGap(t, s, w); }
      FoldedFirst(t, y, "that");
      OtherLetters(t, y);
    } else {
      NoBreakInWord(t, y, "that", q - 1);
    }
  }

  lemma DigitLeadsNothing(t: string, y: nat)
    requires y < |t| && (IsDigit(t[y]) || IsDash(t[y]))
    ensures !Leads(t, y)
  {
    forall k: Kind ensures Lower(t[y]) != LeadOf(k) {
    }
  }

  /** A line break in the heading of an explanation comes before its number. */
  lemma HeadingBreaks(t: string, c: nat, x: nat)
    requires c <= x < |t| && ExplanationDot(t, c).Some? && x <= ExplanationDot(t, c).value && t[x] == '\n'
    ensures c + 11 <= x < SkipSpaces(t, c + 11) < |t| && IsDigit(t[SkipSpaces(t, c + 11)])
  {
    hide IsSpace, IsDigit, FoldsAt;
    if x < c + 11 { NoBreakInWord(t, c, "explanation", x); }
    var s := SkipSpaces(t, c + 11);
    var j := DigitsEnd(t, s);
    if s <= x < j { DigitsHaveNoBreaks(t, s, x); }
    if s < j { assert t[s..j][0] == t[s]; }
  }

  lemma InnerExplanation(t: string, c: nat, q: nat)
    requires c < q <= |t| && ExplanationEnd(t, c).Some? && t[q - 1] == '\n' && q < ExplanationEnd(t, c).value
    ensures SkipSpaces(t, q) >= ExplanationEnd(t, c).value || !Leads(t, SkipSpaces(t, q))
  {
    hide Leads, IsSpace, IsDigit, IsWord, FoldsAt, IsDash, ExplanationDot;
    var d := ExplanationDot(t, c).value;
    var x := SkipSpaces(t, d + 1);
    if q - 1 > d {
      NewlineIsSpace();
      if q <= x {
        SkipAcross(t, d + 1, q);
        if x < |t| && IsDash(t[x]) { DigitLeadsNothing(t, x); }
      }
    } else {
      HeadingBreaks(t, c, q - 1);
      SkipAcross(t, c + 11, q);
      DigitLeadsNothing(t, SkipSpaces(t, c + 11));
    }
  }

  /**
   * Two parts of different kinds: the words of the later one begin only when the opening of the earlier one
   * is over, but for white space.
   */
  lemma OpeningsDoNotNest(k: Kind, k': Kind, t: string, p: nat, q: nat)
    requires p <= q <= |t| && k != k' && MatchEnd(k, t, p).Some? && MatchEnd(k', t, q).Some?
    ensures SkipSpaces(t, q) >= MatchEnd(k, t, p).value
  {
    hide ContentEnd, Leads;
    var e, c, y := MatchEnd(k, t, p).value, SkipSpaces(t, p), SkipSpaces(t, q);
    ContentLeads(k, t, c);
    ContentLeads(k', t, y);
    if q <= c {
      SkipAcross(t, p, q);
      LeadsDiffer(k, k');
    } else if q < e {
      LeadsOf(k', t, y);
      InnerLines(k, t, c, q);
    }
  }

  lemma LeadsDiffer(k: Kind, k': Kind)
    ensures LeadOf(k) == LeadOf(k') ==> k == k'
  {
  }

  lemma LeadsOf(k: Kind, t: string, y: nat)
    requires y < |t| && Lower(t[y]) == LeadOf(k)
    ensures Leads(t, y)
  {
  }
}
