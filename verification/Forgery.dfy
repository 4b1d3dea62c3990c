/**
 * Deleting fabricated markers can put new ones together. Exactly which answers then show a marker from outside
 * the evidence pack, and a reply that has the gate show one.
 */
module Forgery {
  import opened Wrappers
  import opened Text
  import opened Markers
  import opened Splices
  import opened Sentences
  import opened Sections
  import opened Enforce
  import opened AnswerFormat

  /** The labels put together while the markers are cut out one after the other, and not cut out again later. */
  function SplicedAll(s: string, ms: seq<string>): set<string>
    decreases |ms|
  {
    if ms == [] then {}
    else
      (set x | x in SplicedIn(s, ms[0]) && x !in ms[1..]) + SplicedAll(Remove(s, Bracket(ms[0])), ms[1..])
  }

  /** What is left after any sequence of deletions: the other markers, and those put together on the way. */
  lemma {:induction false} RemoveAllExact(s: string, ms: seq<string>)
    requires forall m | m in ms :: IsLabel(m)
    ensures forall x :: x in MarkersOf(RemoveAll(s, ms)) <==> (x in MarkersOf(s) && x !in ms) || x in SplicedAll(s, ms)
    decreases |ms|
  {
    hide MarkersOf, Remove, IsLabel, SplicedIn;
    if ms != [] {
      assert ms[0] in ms && forall m | m in ms[1..] :: m in ms;
      RemovalIsExact(s, ms[0]);
      RemoveAllExact(Remove(s, Bracket(ms[0])), ms[1..]);
      assert forall m :: m in ms <==> m == ms[0] || m in ms[1..];
    }
  }

  /** Cutting the fabricated markers out of the line puts no other foreign one together. */
  predicate Harmless(s: string, allowed: set<string>, ord: Order) {
    SplicedAll(s, ord(s, LabelSet(s) - allowed)) <= allowed
  }

  lemma CleanedExactly(s: string, allowed: set<string>, ord: Order)
    requires IsOrder(ord)
    ensures LabelSet(Cleaned(s, allowed, ord)) <= allowed <==> Harmless(s, allowed, ord)
    ensures LabelSet(s) <= allowed ==> Harmless(s, allowed, ord)
  {
    var fabricated := LabelSet(s) - allowed;
    ScanLabels(IDLE, s);
    assert forall m :: m in ord(s, fabricated) <==> m in fabricated;
    RemoveAllExact(s, ord(s, fabricated));
    hide Scan, RemoveAll, IsLabel, SplicedAll;
    var left, spliced := LabelSet(Cleaned(s, allowed, ord)), SplicedAll(s, ord(s, fabricated));
    assert forall x :: x in left <==> (x in LabelSet(s) && x in allowed) || x in spliced;
    if LabelSet(s) <= allowed {
      assert fabricated == {};
      NothingToCut(s, ord(s, fabricated));
    }
  }

  lemma NothingToCut(s: string, ms: seq<string>)
    ensures SplicedAll(s, ms) == {} || exists m :: m in ms
  {
    if ms != [] { assert ms[0] in ms; }
  }

  lemma SentenceExactly(s: string, allowed: set<string>, ord: Order)
    requires IsOrder(ord) && KeepSentence(s, allowed, ord).Some?
    ensures LabelSet(KeepSentence(s, allowed, ord).value) <= allowed <==> Harmless(s, allowed, ord)
  {
    CleanedExactly(s, allowed, ord);
    TidyMarkers(Cleaned(s, allowed, ord));
    hide Tidy, Scan, Cleaned, Harmless;
  }

  lemma BulletExactly(raw: string, allowed: set<string>, ord: Order, require: bool)
    requires IsOrder(ord) && KeepBullet(raw, allowed, ord, require).Some?
    ensures LabelSet(KeepBullet(raw, allowed, ord, require).value) <= allowed <==>
            Harmless(Strip(DropBullets(raw)), allowed, ord)
  {
    var line := Strip(DropBullets(raw));
    CleanedExactly(line, allowed, ord);
    TidyMarkers(Cleaned(line, allowed, ord));
    hide Tidy, Scan, Cleaned, Harmless, Strip, DropBullets;
  }

  ghost predicate SentencesHarmless(text: string, allowed: set<string>, ord: Order) {
    forall s | s in SentencesOf(text) && KeepSentence(s, allowed, ord).Some? :: Harmless(s, allowed, ord)
  }

  ghost predicate BulletsHarmless(text: string, allowed: set<string>, ord: Order, require: bool) {
    forall raw | raw in Lines(text) && KeepBullet(raw, allowed, ord, require).Some? ::
      Harmless(Strip(DropBullets(raw)), allowed, ord)
  }

  /** No sentence or bullet that is kept has a foreign marker put together by what is cut out of it. */
  ghost predicate NothingForged(text: string, allowed: set<string>, ord: Order) {
    && SentencesHarmless(SectionText(text, Answer), allowed, ord)
    && BulletsHarmless(SectionText(text, LegalBasis), allowed, ord, true)
    && BulletsHarmless(SectionText(text, PrivateMaterial), allowed, ord, true)
    && BulletsHarmless(SectionText(text, Conflicts), allowed, ord, false)
  }

  lemma CitedWithin(parts: seq<string>, allowed: set<string>)
    ensures Cited(parts) <= allowed <==> forall p | p in parts :: LabelSet(p) <= allowed
  {
    hide Scan;
    if Cited(parts) <= allowed {
      forall p, m | p in parts && m in LabelSet(p) ensures m in allowed {
        assert m in MarkersOf(p);
        assert m in Cited(parts);
      }
    }
  }

  lemma SentencesExactly(text: string, allowed: set<string>, ord: Order)
    requires IsOrder(ord)
    ensures Cited(KeptSentences(text, allowed, ord)) <= allowed <==> SentencesHarmless(text, allowed, ord)
  {
    hide KeepSentence, SentencesOf, IsOrder, LabelSet, Cited, Harmless;
    var sentences := SentencesOf(text);
    var verdicts := Verdicts(sentences, allowed, ord);
    var kept := KeptSentences(text, allowed, ord);
    SurvivorsAre(verdicts);
    CitedWithin(kept, allowed);
    forall s | s in sentences && KeepSentence(s, allowed, ord).Some?
      ensures KeepSentence(s, allowed, ord).value in kept
      ensures LabelSet(KeepSentence(s, allowed, ord).value) <= allowed <==> Harmless(s, allowed, ord)
    {
      var i :| 0 <= i < |sentences| && sentences[i] == s;
      assert verdicts[i] in verdicts;
      SentenceExactly(s, allowed, ord);
    }
    forall p | p in kept ensures exists s :: s in sentences && KeepSentence(s, allowed, ord) == Some(p) {
      var i :| 0 <= i < |verdicts| && verdicts[i] == Some(p);
      assert sentences[i] in sentences;
    }
  }

  lemma BulletsExactly(text: string, allowed: set<string>, ord: Order, require: bool)
    requires IsOrder(ord)
    ensures Cited(KeptBullets(text, allowed, ord, require)) <= allowed <==> BulletsHarmless(text, allowed, ord, require)
  {
    hide KeepBullet, Lines, IsOrder, LabelSet, Cited, Harmless, Strip, DropBullets;
    var lines := Lines(text);
    var verdicts := BulletVerdicts(lines, allowed, ord, require);
    var kept := KeptBullets(text, allowed, ord, require);
    SurvivorsAre(verdicts);
    CitedWithin(kept, allowed);
    forall raw | raw in lines && KeepBullet(raw, allowed, ord, require).Some?
      ensures KeepBullet(raw, allowed, ord, require).value in kept
      ensures LabelSet(KeepBullet(raw, allowed, ord, require).value) <= allowed <==>
              Harmless(Strip(DropBullets(raw)), allowed, ord)
    {
      var i :| 0 <= i < |lines| && lines[i] == raw;
      assert verdicts[i] in verdicts;
      BulletExactly(raw, allowed, ord, require);
    }
    forall p | p in kept ensures exists raw :: raw in lines && KeepBullet(raw, allowed, ord, require) == Some(p) {
      var i :| 0 <= i < |verdicts| && verdicts[i] == Some(p);
      assert lines[i] in lines;
    }
  }

  /** Exactly when the user sees no marker from outside the evidence pack. */
  lemma GateIsExact(text: string, allowed: set<string>, ord: Order)
    requires IsOrder(ord)
    ensures LabelSet(Rendered(EnforcedOf(text, allowed, ord))) <= allowed <==> NothingForged(text, allowed, ord)
  {
    hide Scan, Cited, LabelSet, SectionText, KeptSentences, KeptBullets, ParseConfidence, ParseInsufficient, IsOrder,
      Rendered, SentencesHarmless, BulletsHarmless;
    RenderedLabels(EnforcedOf(text, allowed, ord));
    AnswerLabels(text, allowed, ord);
    SentencesExactly(SectionText(text, Answer), allowed, ord);
    BulletsExactly(SectionText(text, LegalBasis), allowed, ord, true);
    BulletsExactly(SectionText(text, PrivateMaterial), allowed, ord, true);
    BulletsExactly(SectionText(text, Conflicts), allowed, ord, false);
  }

  /** A sufficient condition that does not depend on the order of the deletions. */
  lemma UnwedgedIsHarmless(text: string, allowed: set<string>, ord: Order)
    requires IsOrder(ord) && Wedged(IDLE, text) <= allowed
    ensures NothingForged(text, allowed, ord)
  {
    hide NothingForged, Rendered, EnforcedOf, LabelSet, Wedged, IsOrder;
    GateIsExact(text, allowed, ord);
    RenderedIsGrounded(text, allowed, ord);
  }

  // ---------------------------------------------------------------------------
  // A reply that gets a foreign marker past the gate
  // ---------------------------------------------------------------------------

  /** A fabricated marker inside an open one, and a proper citation to have the sentence kept. */
  function Smuggled(m: string, e: string, a: string): string {
    "[S" + Bracket(m) + (e + "]") + (" " + Bracket(a))
  }

  lemma SmuggledIsScanned(m: string, e: string, a: string)
    requires IsLabel(m) && IsLabel(a) && AllDigits(e)
    ensures MarkersOf(Smuggled(m, e, a)) == [m, a]
  {
    hide IsDigit, Scan, Wedged, Bracket, IsLabel, Separates;
    var s := "[S" + Bracket(m) + (e + "]");
    NewlineSeparates();
    assert Smuggled(m, e, a) == s + [' '] + Bracket(a);
    ScanAcross(s, ' ', Bracket(a));
    SpliceIsScanned(m, e);
    ReadMarker(IDLE, a);
  }

  lemma DigitsMakeLabel(e: string)
    requires AllDigits(e) && e != []
    ensures IsLabel("S" + e)
  {
    hide IsDigit;
    assert ("S" + e)[1..] == e;
  }

  lemma BracketEnds(m: string)
    ensures |Bracket(m)| >= 2 && Bracket(m)[|Bracket(m)| - 1] == ']'
  {
  }

  lemma SmuggledIsCut(m: string, e: string, a: string)
    requires IsLabel(m) && IsLabel(a) && AllDigits(e) && e != [] && a != m
    ensures "S" + e in LabelSet(Remove(Smuggled(m, e, a), Bracket(m)))
    ensures a in LabelSet(Remove(Smuggled(m, e, a), Bracket(m)))
  {
    hide IsDigit, Scan, Wedged, Bracket, IsLabel, Remove, SplicedIn;
    var y := Remove(" " + Bracket(a), Bracket(m));
    SpliceIsRemoved(m, e, " " + Bracket(a));
    DigitsMakeLabel(e);
    ScanConcat(IDLE, Bracket("S" + e), y);
    ReadMarker(IDLE, "S" + e);
    SmuggledIsScanned(m, e, a);
    RemovalIsExact(Smuggled(m, e, a), m);
  }

  /** Text without sentence ends is one sentence. */
  lemma {:induction false} NoEndNoCut(t: string, pos: nat)
    requires t != [] && pos <= |t| + 1 && forall i | 0 <= i < |t| :: !Ends(t[i])
    ensures Ranges(t, 0, pos) == [Range(0, |t|)]
    decreases |t| + 1 - pos
  {
    hide IsSpace, CutEnd, RunEnd, Ends;
    if pos <= |t| {
      NoEndNoCut(t, pos + 1);
    }
  }

  lemma OneSentence(t: string)
    requires t != [] && IsStripped(t) && forall i | 0 <= i < |t| :: !Ends(t[i])
    ensures SentencesOf(t) == [t]
  {
    StripKeepsStripped(t);
    NoEndNoCut(t, 0);
    hide Strip, Ranges, IsStripped;
    StripIsStripped(t);
    SentencesChain(t);
    assert Fits(t, Range(0, |t|));
    SlicesSnoc(t, [], Range(0, |t|));
    assert [] + [Range(0, |t|)] == [Range(0, |t|)] && t[0..|t|] == t;
    NoSlices(t);
  }

  lemma SmuggledCharacters(m: string, e: string, a: string)
    requires IsLabel(m) && IsLabel(a) && AllDigits(e)
    ensures forall c | c in Smuggled(m, e, a) :: c in "[]S " || IsDigit(c)
    ensures var t := Smuggled(m, e, a); t != [] && t[0] == '[' && t[|t| - 1] == ']'
  {
    hide IsDigit, Bracket, IsLabel;
    LabelCharacters(m);
    LabelCharacters(a);
    BracketEnds(a);
  }

  lemma PlainCharacters(c: char)
    requires c in "[]S " || IsDigit(c)
    ensures !Ends(c) && !IsBreak(c)
    ensures c in "[]" ==> !IsSpace(c)
  {
  }

  lemma SmuggledIsAnswer(m: string, e: string, a: string)
    requires IsLabel(m) && IsLabel(a) && AllDigits(e)
    ensures var t := Smuggled(m, e, a); SectionText(t, Answer) == t && SentencesOf(t) == [t]
  {
    hide IsDigit, IsLabel, Smuggled, Strip, Join, SplitLines, Ends, IsBreak, IsSpace, SentencesOf;
    var t := Smuggled(m, e, a);
    SmuggledCharacters(m, e, a);
    forall i | 0 <= i < |t| ensures !Ends(t[i]) && !IsBreak(t[i]) {
      assert t[i] in t;
      PlainCharacters(t[i]);
    }
    PlainCharacters('[');
    PlainCharacters(']');
    StripKeepsStripped(t);
    OneSentence(t);
    SplitLinesOfOne(t);
    NoHeader(t);
    hide HeaderOf;
    assert [t][1..] == [];
    assert Bucket([t], Answer, Answer) == [t] + Bucket([], Answer, Answer) == [t];
    JoinOne(t);
  }

  lemma JoinOne(t: string)
    ensures Join("\n", [t]) == t
  {
  }

  lemma SplitLinesOfOne(t: string)
    requires t != [] && forall i | 0 <= i < |t| :: !IsBreak(t[i])
    ensures SplitLines(t) == [t]
  {
    hide IsBreak;
  }

  lemma NoHeader(t: string)
    requires Strip(t) == t && t != [] && t[0] == '['
    ensures HeaderOf(t) == None
  {
    hide Strip;
    assert forall k: Section :: Header(k)[0] != '[';
  }

  lemma TwoAlike(o: seq<string>, m: string)
    requires forall k | 0 <= k < |o| :: o[k] == m
    ensures |o| > 1 ==> exists i, j :: 0 <= i < j < |o| && o[i] == o[j]
  {
    if |o| > 1 { assert o[0] == o[1]; }
  }

  lemma OnlyOne(ord: Order, line: string, m: string)
    requires IsOrder(ord)
    ensures ord(line, {m}) == [m]
  {
    var o := ord(line, {m});
    assert m in o;
    forall k | 0 <= k < |o| ensures o[k] == m {
      assert o[k] in o;
    }
    TwoAlike(o, m);
  }

  /**
   * The gate can be passed: cutting out the foreign marker `m` puts `S<e>` together, which is shown to the
   * user however foreign it is, since a proper citation keeps the sentence.
   */
  lemma GateCanBePassed(m: string, e: string, a: string, allowed: set<string>, ord: Order)
    requires IsOrder(ord) && IsLabel(m) && IsLabel(a) && AllDigits(e) && e != []
    requires a in allowed && m !in allowed
    ensures "S" + e in LabelSet(Rendered(EnforcedOf(Smuggled(m, e, a), allowed, ord)))
  {
    hide IsDigit, IsLabel, AllDigits, Scan, RemoveAll, Tidy, Smuggled, SentencesOf, SectionText, Cited, Rendered,
      KeptBullets, Join, Strip, Remove;
    var t := Smuggled(m, e, a);
    SmuggledIsAnswer(m, e, a);
    SmuggledIsScanned(m, e, a);
    SmuggledIsCut(m, e, a);
    assert LabelSet(t) - allowed == {m};
    OnlyOne(ord, t, m);
    OneCut(t, m);
    var cleaned := Cleaned(t, allowed, ord);
    assert a in LabelSet(cleaned) * allowed && "S" + e in LabelSet(cleaned);
    TidyMarkers(cleaned);
    assert KeepSentence(t, allowed, ord) == Some(Tidy(cleaned));
    OneKept(t, allowed, ord);
    CitedOne(Tidy(cleaned));
    hide EnforcedOf;
    AnswerLabels(t, allowed, ord);
    RenderedLabels(EnforcedOf(t, allowed, ord));
  }

  lemma OneCut(s: string, m: string)
    ensures RemoveAll(s, [m]) == Remove(s, Bracket(m))
  {
    assert [m][1..] == [];
    assert RemoveAll(Remove(s, Bracket(m)), []) == Remove(s, Bracket(m));
  }

  lemma OneKept(t: string, allowed: set<string>, ord: Order)
    requires SentencesOf(t) == [t] && KeepSentence(t, allowed, ord).Some?
    ensures KeptSentences(t, allowed, ord) == [KeepSentence(t, allowed, ord).value]
  {
    hide SentencesOf, KeepSentence;
    var v := Verdicts([t], allowed, ord);
    assert v == [KeepSentence(t, allowed, ord)] && v[..0] == [];
    assert Survivors(v[..0]) == [];
    assert Survivors(v) == Survivors(v[..0]) + [v[0].value];
  }
}
