/**
 * Grounding enforcement: what of an untrusted answer may reach the user, given the markers
 * of the evidence pack.
 */
module Enforce {
  import opened Wrappers
  import opened Text
  import opened Markers
  import opened Sentences
  import opened Sections

  /**
   * The order in which the markers of a set are gone through when a line is cleaned; any order that visits each
   * marker, and not the same one for every line.
   */
  type Order = (string, set<string>) -> seq<string>

  ghost predicate IsOrder(ord: Order) {
    && (forall line, ms: set<string>, x :: x in ord(line, ms) <==> x in ms)
    && (forall line, ms: set<string>, i, j | 0 <= i < j < |ord(line, ms)| :: ord(line, ms)[i] != ord(line, ms)[j])
  }

  /** One way to go through a set: any element, then the rest. */
  ghost function Listed(ms: set<string>): seq<string> {
    if ms == {} then []
    else
      var m :| m in ms;
      [m] + Listed(ms - {m})
  }

  lemma {:induction false} ListedVisits(ms: set<string>)
    ensures forall x :: x in Listed(ms) <==> x in ms
    ensures forall i, j | 0 <= i < j < |Listed(ms)| :: Listed(ms)[i] != Listed(ms)[j]
  {
    if ms != {} {
      var out := Listed(ms);
      var rest := ms - {out[0]};
      assert out == [out[0]] + Listed(rest);
      ListedVisits(rest);
      forall i, j | 0 <= i < j < |out| ensures out[i] != out[j] {
        assert out[j] == Listed(rest)[j - 1] && out[j] in Listed(rest);
        if i > 0 { assert out[i] == Listed(rest)[i - 1]; }
      }
    }
  }

  /** There is such an order. */
  lemma OrdersExist()
    ensures exists ord: Order :: IsOrder(ord)
  {
    var ord: Order := (line, ms) => Listed(ms);
    forall line, ms: set<string>
      ensures forall x :: x in ord(line, ms) <==> x in ms
      ensures forall i, j | 0 <= i < j < |ord(line, ms)| :: ord(line, ms)[i] != ord(line, ms)[j]
    {
      ListedVisits(ms);
    }
    assert IsOrder(ord);
  }

  // ---------------------------------------------------------------------------
  // Cleaning one line
  // ---------------------------------------------------------------------------

  function RemoveAll(s: string, ms: seq<string>): string
    decreases |ms|
  {
    if ms == [] then s else RemoveAll(Remove(s, Bracket(ms[0])), ms[1..])
  }

  /** Every run of two or more white-space characters becomes one blank. */
  function Collapse(s: string): string
    decreases |s|
  {
    if s == [] then []
    else
      var n := SkipSpaces(s, 0);
      if n >= 2 then " " + Collapse(s[n..]) else [s[0]] + Collapse(s[1..])
  }

  function LabelSet(s: string): set<string> {
    set m | m in MarkersOf(s)
  }

  function Cleaned(s: string, allowed: set<string>, ord: Order): string {
    RemoveAll(s, ord(s, LabelSet(s) - allowed))
  }

  lemma {:induction false} RemoveAllMarkers(s: string, ms: seq<string>, ok: set<string>)
    requires Wedged(IDLE, s) <= ok && forall m | m in ms :: IsLabel(m) && m !in ok
    ensures forall m :: m in MarkersOf(RemoveAll(s, ms)) <==> m in MarkersOf(s) && m !in ms
    ensures Wedged(IDLE, RemoveAll(s, ms)) <= ok
    decreases |ms|
  {
    hide MarkersOf, Wedged, Remove, IsLabel;
    if ms != [] {
      assert ms[0] in ms && forall m | m in ms[1..] :: m in ms;
      RemoveFrom(s, ms[0], ok);
      WithoutElements(MarkersOf(s), ms[0]);
      RemoveAllMarkers(Remove(s, Bracket(ms[0])), ms[1..], ok);
      assert forall m :: m in ms <==> m == ms[0] || m in ms[1..];
    }
  }

  lemma SpacesForget(st: Pending, a: string, b: string)
    requires AllSpaces(a) && a != []
    ensures Scan(st, a + b) == Scan(IDLE, b) && Wedged(st, a + b) == Wedged(IDLE, b)
  {
    hide IsSpace, Separates, Scan, End, Wedged;
    SpaceSeparates(a[0]);
    assert a + b == [a[0]] + (a[1..] + b);
    ScanSeparator(st, a[0], a[1..] + b);
    ScanConcat(IDLE, a[1..], b);
    ScanSpaces(a[1..]);
    assert [] + Scan(IDLE, b) == Scan(IDLE, b) && {} + Wedged(IDLE, b) == Wedged(IDLE, b);
  }

  /** Collapsing white space touches no marker. */
  lemma {:induction false} CollapseMarkers(st: Pending, s: string)
    ensures Scan(st, Collapse(s)) == Scan(st, s)
    ensures Wedged(st, Collapse(s)) == Wedged(st, s)
    decreases |s|
  {
    hide IsSpace, Next, Completes;
    if s != [] {
      var n := SkipSpaces(s, 0);
      if n >= 2 {
        assert s == s[0..n] + s[n..];
        SpacesForget(st, s[0..n], s[n..]);
        assert IsSpace(' ') by { BlankIsSpace(); }
        SpacesForget(st, " ", Collapse(s[n..]));
        CollapseMarkers(IDLE, s[n..]);
      } else {
        CollapseMarkers(Next(st, s[0]), s[1..]);
        assert ([s[0]] + Collapse(s[1..]))[1..] == Collapse(s[1..]);
      }
    }
  }

  lemma BlankIsSpace()
    ensures IsSpace(' ')
  {
  }

  /** The last touches to a cleaned line leave its markers as they are. */
  function Tidy(s: string): string {
    Strip(Collapse(s))
  }

  lemma TidyMarkers(s: string)
    ensures MarkersOf(Tidy(s)) == MarkersOf(s)
    ensures Wedged(IDLE, Tidy(s)) == Wedged(IDLE, s)
  {
    hide Strip, Collapse, Scan, Wedged;
    CollapseMarkers(IDLE, s);
    StripMarkers(Collapse(s));
  }

  // ---------------------------------------------------------------------------
  // One sentence, one bullet
  // ---------------------------------------------------------------------------

  /** What becomes of a sentence: dropped, kept as it is, or kept without its fabricated markers. */
  function KeepSentence(s: string, allowed: set<string>, ord: Order): Option<string> {
    if LabelSet(s) == {} then None
    else if LabelSet(s) <= allowed then Some(s)
    else
      var cleaned := Cleaned(s, allowed, ord);
      if LabelSet(cleaned) * allowed == {} then None else Some(Tidy(cleaned))
  }

  predicate IsBulletChar(c: char) {
    c in "-* \U{2022}"
  }

  function DropBullets(s: string): string {
    if s != [] && IsBulletChar(s[0]) then DropBullets(s[1..]) else s
  }

  /** The same for a bullet line; bullets that need no citation are kept unless nothing is left of them. */
  function KeepBullet(raw: string, allowed: set<string>, ord: Order, require: bool): Option<string> {
    var line := Strip(DropBullets(raw));
    if line == [] then None
    else if require && LabelSet(line) == {} then None
    else if LabelSet(line) <= allowed then Some(line)
    else
      var tidy := Tidy(Cleaned(line, allowed, ord));
      if require && LabelSet(tidy) * allowed == {} then None
      else if tidy == [] then None
      else Some(tidy)
  }

  /** A kept sentence carries a marker of the evidence pack, whatever the text. */
  lemma KeptSentenceIsGrounded(s: string, allowed: set<string>, ord: Order)
    ensures KeepSentence(s, allowed, ord).Some? ==> LabelSet(KeepSentence(s, allowed, ord).value) * allowed != {}
  {
    hide Tidy, Scan, RemoveAll;
    TidyMarkers(Cleaned(s, allowed, ord));
    var labels := LabelSet(s);
    if labels != {} && labels <= allowed {
      var m :| m in labels;
      assert m in labels * allowed;
    }
  }

  lemma KeptBulletIsGrounded(raw: string, allowed: set<string>, ord: Order)
    ensures KeepBullet(raw, allowed, ord, true).Some? ==>
            LabelSet(KeepBullet(raw, allowed, ord, true).value) * allowed != {}
  {
    hide Tidy, Scan, RemoveAll, Strip, DropBullets;
    var labels := LabelSet(Strip(DropBullets(raw)));
    if labels != {} && labels <= allowed {
      var m :| m in labels;
      assert m in labels * allowed;
    }
  }

  lemma CleanedMarkers(s: string, allowed: set<string>, ord: Order)
    requires IsOrder(ord) && Wedged(IDLE, s) <= allowed
    ensures LabelSet(Cleaned(s, allowed, ord)) == LabelSet(s) * allowed
    ensures Wedged(IDLE, Cleaned(s, allowed, ord)) <= allowed
  {
    var fabricated := LabelSet(s) - allowed;
    ScanLabels(IDLE, s);
    hide Scan, RemoveAll, IsLabel;
    RemoveAllMarkers(s, ord(s, fabricated), allowed);
    assert forall m :: m in ord(s, fabricated) <==> m in fabricated;
  }

  /**
   * With no foreign marker wedged the sentence survives exactly if it cites the evidence pack, and keeps exactly
   * those citations.
   */
  lemma SentenceKeepsValid(s: string, allowed: set<string>, ord: Order)
    requires IsOrder(ord) && Wedged(IDLE, s) <= allowed
    ensures KeepSentence(s, allowed, ord).Some? <==> LabelSet(s) * allowed != {}
    ensures KeepSentence(s, allowed, ord).Some? ==>
              var kept := KeepSentence(s, allowed, ord).value;
              LabelSet(kept) == LabelSet(s) * allowed && Wedged(IDLE, kept) <= allowed
  {
    hide Tidy, Scan, Wedged, Cleaned, IsOrder;
    CleanedMarkers(s, allowed, ord);
    TidyMarkers(Cleaned(s, allowed, ord));
    var labels := LabelSet(s);
    if labels <= allowed { assert labels * allowed == labels; }
  }

  lemma {:induction false} DropBulletsIsSuffix(s: string) returns (i: nat)
    ensures i <= |s| && DropBullets(s) == s[i..|s|]
  {
    i := 0;
    if s != [] && IsBulletChar(s[0]) {
      var j := DropBulletsIsSuffix(s[1..]);
      i := j + 1;
    }
  }

  lemma BulletInherits(raw: string)
    ensures Inherits(Strip(DropBullets(raw)), raw)
  {
    hide Strip, DropBullets, Inherits;
    var i := DropBulletsIsSuffix(raw);
    SliceInherits(raw, i, |raw|);
    StripInherits(DropBullets(raw));
    InheritsTrans(Strip(DropBullets(raw)), DropBullets(raw), raw);
  }

  /** With no foreign marker wedged a bullet keeps exactly its citations of the evidence pack. */
  lemma BulletKeepsValid(raw: string, allowed: set<string>, ord: Order, require: bool)
    requires IsOrder(ord) && Wedged(IDLE, raw) <= allowed
    ensures var line := Strip(DropBullets(raw));
            && (KeepBullet(raw, allowed, ord, require).Some? ==>
                  var kept := KeepBullet(raw, allowed, ord, require).value;
                  LabelSet(kept) == LabelSet(line) * allowed && Wedged(IDLE, kept) <= allowed)
            && (require ==> (KeepBullet(raw, allowed, ord, require).Some? <==> LabelSet(line) * allowed != {}))
  {
    var line := Strip(DropBullets(raw));
    BulletInherits(raw);
    CleanedMarkers(line, allowed, ord);
    TidyMarkers(Cleaned(line, allowed, ord));
    NoTextNoMarkers(line);
    NoTextNoMarkers(Tidy(Cleaned(line, allowed, ord)));
    hide Tidy, Scan, Wedged, Cleaned, Strip, DropBullets, IsOrder;
    var labels := LabelSet(line);
    if labels <= allowed { assert labels * allowed == labels; }
  }

  lemma NoTextNoMarkers(s: string)
    ensures s == [] ==> LabelSet(s) == {}
  {
  }

  // ---------------------------------------------------------------------------
  // Lists of sentences and bullets
  // ---------------------------------------------------------------------------

  function Survivors(rs: seq<Option<string>>): seq<string> {
    if rs == [] then []
    else Survivors(rs[..|rs| - 1]) + (if rs[|rs| - 1].Some? then [rs[|rs| - 1].value] else [])
  }

  lemma {:induction false} SurvivorsAre(rs: seq<Option<string>>)
    ensures forall x :: x in Survivors(rs) <==> Some(x) in rs
    ensures |Survivors(rs)| <= |rs|
  {
    if rs != [] {
      var n := |rs| - 1;
      SurvivorsAre(rs[..n]);
      assert rs == rs[..n] + [rs[n]];
    }
  }

  function Verdicts(sentences: seq<string>, allowed: set<string>, ord: Order): seq<Option<string>> {
    seq(|sentences|, i requires 0 <= i < |sentences| => KeepSentence(sentences[i], allowed, ord))
  }

  ghost function KeptSentences(text: string, allowed: set<string>, ord: Order): seq<string> {
    Survivors(Verdicts(SentencesOf(text), allowed, ord))
  }

  /** The non-blank lines of a section, stripped. */
  function Lines(text: string): seq<string> {
    Survivors(NonBlank(SplitLines(text)))
  }

  function NonBlank(lines: seq<string>): seq<Option<string>> {
    seq(|lines|, i requires 0 <= i < |lines| => if Strip(lines[i]) != [] then Some(Strip(lines[i])) else None)
  }

  function BulletVerdicts(lines: seq<string>, allowed: set<string>, ord: Order, require: bool): seq<Option<string>> {
    seq(|lines|, i requires 0 <= i < |lines| => KeepBullet(lines[i], allowed, ord, require))
  }

  function KeptBullets(text: string, allowed: set<string>, ord: Order, require: bool): seq<string> {
    Survivors(BulletVerdicts(Lines(text), allowed, ord, require))
  }

  function Cited(parts: seq<string>): set<string> {
    set p, m | p in parts && m in MarkersOf(p) :: m
  }

  /** Every kept sentence is grounded in the evidence pack. */
  lemma KeptSentencesAreGrounded(text: string, allowed: set<string>, ord: Order, s: string)
    requires s in KeptSentences(text, allowed, ord)
    ensures LabelSet(s) * allowed != {}
  {
    hide KeepSentence, LabelSet, SentencesOf;
    var verdicts := Verdicts(SentencesOf(text), allowed, ord);
    SurvivorsAre(verdicts);
    var i :| 0 <= i < |verdicts| && verdicts[i] == Some(s);
    KeptSentenceIsGrounded(SentencesOf(text)[i], allowed, ord);
  }

  /** Every kept bullet of a section that needs citations is grounded in the evidence pack. */
  lemma KeptBulletsAreGrounded(text: string, allowed: set<string>, ord: Order, line: string)
    requires line in KeptBullets(text, allowed, ord, true)
    ensures LabelSet(line) * allowed != {}
  {
    hide KeepBullet, LabelSet, Lines;
    var verdicts := BulletVerdicts(Lines(text), allowed, ord, true);
    SurvivorsAre(verdicts);
    var i :| 0 <= i < |verdicts| && verdicts[i] == Some(line);
    KeptBulletIsGrounded(Lines(text)[i], allowed, ord);
  }

  /**
   * With no foreign marker wedged the kept sentences cite exactly what the text cites of the evidence pack:
   * nothing more, nothing less.
   */
  lemma KeptSentencesCite(text: string, allowed: set<string>, ord: Order)
    requires IsOrder(ord) && Wedged(IDLE, text) <= allowed
    ensures Cited(KeptSentences(text, allowed, ord)) == LabelSet(text) * allowed
    ensures forall s | s in KeptSentences(text, allowed, ord) :: Wedged(IDLE, s) <= allowed
  {
    hide KeepSentence, SentencesOf, IsOrder, Scan, Wedged;
    var sentences := SentencesOf(text);
    var verdicts := Verdicts(sentences, allowed, ord);
    var kept := KeptSentences(text, allowed, ord);
    SurvivorsAre(verdicts);
    SentenceMarkers(text);
    forall s | s in kept ensures Wedged(IDLE, s) <= allowed && LabelSet(s) <= LabelSet(text) * allowed {
      var i :| 0 <= i < |verdicts| && verdicts[i] == Some(s);
      SentenceIsSlice(text, sentences[i]);
      SentenceKeepsValid(sentences[i], allowed, ord);
    }
    forall m | m in LabelSet(text) * allowed ensures m in Cited(kept) {
      var s :| s in sentences && m in MarkersOf(s);
      var i :| 0 <= i < |sentences| && sentences[i] == s;
      SentenceIsSlice(text, s);
      assert m in LabelSet(s) * allowed;
      SentenceKeepsValid(s, allowed, ord);
      assert verdicts[i] in verdicts;
      assert m in LabelSet(verdicts[i].value);
    }
  }

  lemma LineInherits(text: string, line: string)
    requires line in Lines(text)
    ensures Inherits(line, text)
  {
    hide Inherits, Strip;
    LinesInherit(text);
    var all := SplitLines(text);
    SurvivorsAre(NonBlank(all));
    var i :| 0 <= i < |all| && line == Strip(all[i]);
    assert all[i] in all;
    StripInherits(all[i]);
    InheritsTrans(line, all[i], text);
  }

  /** With no foreign marker wedged the kept bullets cite nothing but the evidence pack. */
  lemma KeptBulletsCite(text: string, allowed: set<string>, ord: Order, require: bool)
    requires IsOrder(ord) && Wedged(IDLE, text) <= allowed
    ensures Cited(KeptBullets(text, allowed, ord, require)) <= LabelSet(text) * allowed
    ensures forall s | s in KeptBullets(text, allowed, ord, require) :: Wedged(IDLE, s) <= allowed
  {
    hide KeepBullet, Lines, IsOrder, Scan, Wedged, Strip, DropBullets;
    var lines := Lines(text);
    var verdicts := BulletVerdicts(lines, allowed, ord, require);
    SurvivorsAre(verdicts);
    forall s | s in KeptBullets(text, allowed, ord, require)
      ensures Wedged(IDLE, s) <= allowed && LabelSet(s) <= LabelSet(text) * allowed
    {
      var i :| 0 <= i < |verdicts| && verdicts[i] == Some(s);
      LineInherits(text, lines[i]);
      BulletInherits(lines[i]);
      BulletKeepsValid(lines[i], allowed, ord, require);
    }
  }

  // ---------------------------------------------------------------------------
  // Confidence and sufficiency
  // ---------------------------------------------------------------------------

  datatype Level = Low | Medium | High

  /** The key on a word boundary at `i`, white space, and then one of the words: which one. */
  function KeyedAt(t: string, i: nat, key: string, words: seq<string>): Option<string>
    requires i <= |t|
  {
    if (i == 0 || !IsWord(t[i - 1])) && FoldsAt(t, i, key) then FirstWordAt(t, SkipSpaces(t, i + |key|), words)
      else None
  }

  function FirstWordAt(t: string, j: nat, words: seq<string>): Option<string> {
    if words == [] then None
    else if WordAt(t, j, words[0]) then Some(words[0])
    else FirstWordAt(t, j, words[1..])
  }

  function Search(t: string, i: nat, key: string, words: seq<string>): Option<string>
    requires i <= |t|
    decreases |t| - i
  {
    if KeyedAt(t, i, key, words).Some? then KeyedAt(t, i, key, words)
    else if i == |t| then None
    else Search(t, i + 1, key, words)
  }

  function LevelOf(word: string): Level {
    if word == "high" then High else if word == "medium" then Medium else Low
  }

  /** `key: value` anywhere, or the bare value on its own. */
  function ParseConfidence(text: string): Option<Level> {
    var found := Search(text, 0, Header(Confidence), ["high", "medium", "low"]);
    var bare := Strip(text);
    if found.Some? then Some(LevelOf(found.value))
    else if |bare| == 4 && FoldsAt(bare, 0, "high") then Some(High)
    else if |bare| == 6 && FoldsAt(bare, 0, "medium") then Some(Medium)
    else if |bare| == 3 && FoldsAt(bare, 0, "low") then Some(Low)
    else None
  }

  function ParseInsufficient(text: string): bool {
    var found := Search(text, 0, Header(Insufficient), ["yes", "no"]);
    if found.Some? then found.value == "yes" else FoldsSomewhere(Strip(text), 0, "yes")
  }

  // ---------------------------------------------------------------------------
  // The enforced answer
  // ---------------------------------------------------------------------------

  datatype EnforcedAnswer = EnforcedAnswer(
    answer: string, legalBasis: seq<string>, privateMaterial: seq<string>, conflicts: seq<string>,
    confidence: Level, insufficient: bool, used: set<string>)

  ghost function EnforcedOf(text: string, allowed: set<string>, ord: Order): EnforcedAnswer {
    var kept := KeptSentences(SectionText(text, Answer), allowed, ord);
    var legal := KeptBullets(SectionText(text, LegalBasis), allowed, ord, true);
    var private := KeptBullets(SectionText(text, PrivateMaterial), allowed, ord, true);
    var answer := Strip(Join(" ", kept));
    var level := ParseConfidence(SectionText(text, Confidence));
    EnforcedAnswer(
      answer, legal, private,
      KeptBullets(SectionText(text, Conflicts), allowed, ord, false),
      if answer == [] || level.None? then Low else level.value,
      answer == [] || ParseInsufficient(SectionText(text, Insufficient)),
      Cited(kept) * allowed + Cited(legal + private))
  }

  /** The enforcer's account of what it dropped; sentences and bullets alike are recorded as dropped. */
  class EnforcementReport {
    var dropped: seq<string>
    var fabricated: set<string>
    var total: nat
    var kept: nat

    constructor ()
      ensures dropped == [] && fabricated == {} && total == kept == 0
    {
      dropped, fabricated, total, kept := [], {}, 0, 0;
    }
  }

  /** The sentences that were not kept, in order. */
  function Rejected(sentences: seq<string>, verdicts: seq<Option<string>>): seq<string>
    requires |sentences| == |verdicts|
  {
    if sentences == [] then []
    else
      var n := |sentences| - 1;
      Rejected(sentences[..n], verdicts[..n]) + (if verdicts[n].None? then [sentences[n]] else [])
  }

  lemma {:induction false} EverySentenceIsAccountedFor(sentences: seq<string>, verdicts: seq<Option<string>>)
    requires |sentences| == |verdicts|
    ensures |Survivors(verdicts)| + |Rejected(sentences, verdicts)| == |sentences|
    decreases |sentences|
  {
    if sentences != [] {
      var n := |sentences| - 1;
      EverySentenceIsAccountedFor(sentences[..n], verdicts[..n]);
    }
  }

  ghost function Fabricated(parts: seq<string>, allowed: set<string>): set<string> {
    Cited(parts) - allowed
  }

  /** Replaces fabricated markers by nothing, one after the other. */
  method RemoveMarkers(s: string, fabricated: seq<string>) returns (r: string)
    ensures r == RemoveAll(s, fabricated)
  {
    r := s;
    for k := 0 to |fabricated|
      invariant RemoveAll(s, fabricated) == RemoveAll(r, fabricated[k..])
    {
      r := Remove(r, Bracket(fabricated[k]));
    }
  }

  /** Judges one sentence, and records what was wrong with it. */
  method FilterSentence(sent: string, allowed: set<string>, ord: Order, report: EnforcementReport)
    returns (out: Option<string>)
    modifies report
    ensures out == KeepSentence(sent, allowed, ord)
    ensures report.dropped == old(report.dropped) + (if out.None? then [sent] else [])
    ensures report.fabricated == old(report.fabricated) + (LabelSet(sent) - allowed)
    ensures report.total == old(report.total) + 1 && report.kept == old(report.kept) + (if out.Some? then 1 else 0)
  {
    hide Scan, Tidy, RemoveAll;
    report.total := report.total + 1;
    SubsetByDifference(LabelSet(sent), allowed);
    var found := FindMarkers(sent);
    var markers := set m | m in found;
    if markers == {} {
      report.dropped := report.dropped + [sent];
      return None;
    }
    var fabricated := markers - allowed;
    out := Some(sent);
    if fabricated != {} {
      report.fabricated := report.fabricated + fabricated;
      var cleaned := RemoveMarkers(sent, ord(sent, fabricated));
      var left := FindMarkers(cleaned);
      var remaining := set m | m in left;
      if remaining * allowed == {} {
        report.dropped := report.dropped + [sent];
        return None;
      }
      out := Some(Tidy(cleaned));
    }
    report.kept := report.kept + 1;
  }

  lemma SubsetByDifference(a: set<string>, b: set<string>)
    ensures a - b == {} <==> a <= b
  {
    if a - b == {} {
      forall x | x in a ensures x in b { assert x !in a - b; }
    }
  }

  /** Goes through the sentences, keeping what the evidence pack supports and recording the rest. */
  method FilterSection(text: string, allowed: set<string>, ord: Order, report: EnforcementReport)
    returns (answer: string, used: set<string>)
    modifies report
    ensures answer == Join(" ", KeptSentences(text, allowed, ord))
    ensures used == Cited(KeptSentences(text, allowed, ord)) * allowed
    ensures report.total == old(report.total) + |SentencesOf(text)|
    ensures report.kept == old(report.kept) + |KeptSentences(text, allowed, ord)|
    ensures report.dropped ==
            old(report.dropped) + Rejected(SentencesOf(text), Verdicts(SentencesOf(text), allowed, ord))
    ensures report.fabricated == old(report.fabricated) + Fabricated(SentencesOf(text), allowed)
  {
    hide SentencesOf, Join, KeepSentence, LabelSet, Cited;
    var sentences := SplitSentences(text);
    ghost var verdicts := Verdicts(sentences, allowed, ord);
    var kept: seq<string> := [];
    used := {};
    NothingCited();
    for k := 0 to |sentences|
      invariant kept == Survivors(verdicts[..k])
      invariant used == Cited(kept) * allowed
      invariant report.total == old(report.total) + k
      invariant report.kept == old(report.kept) + |kept|
      invariant report.dropped == old(report.dropped) + Rejected(sentences[..k], verdicts[..k])
      invariant report.fabricated == old(report.fabricated) + Fabricated(sentences[..k], allowed)
    {
      var sent := sentences[k];
      assert sentences[..k + 1][..k] == sentences[..k] && verdicts[..k + 1][..k] == verdicts[..k];
      assert sentences[..k + 1] == sentences[..k] + [sent];
      CitedSnoc(sentences[..k], sent);
      var out := FilterSentence(sent, allowed, ord, report);
      if out.Some? {
        CitedSnoc(kept, out.value);
        var found := FindMarkers(out.value);
        LabelsFound(out.value, found);
        used := used + (set m | m in found) * allowed;
        kept := kept + [out.value];
      }
    }
    assert sentences[..|sentences|] == sentences && verdicts[..|verdicts|] == verdicts;
    answer := Join(" ", kept);
  }

  lemma NothingCited()
    ensures Cited([]) == {}
  {
  }

  lemma LabelsFound(s: string, found: seq<string>)
    requires found == MarkersOf(s)
    ensures LabelSet(s) == set m | m in found
  {
  }

  lemma CitedSnoc(parts: seq<string>, p: string)
    ensures Cited(parts + [p]) == Cited(parts) + LabelSet(p)
  {
    hide Scan;
  }

  /**
   * What a bullet adds to the list of dropped items: the text after the bullet sign if it cites nothing, else
   * the raw line.
   */
  function BulletDrop(raw: string, allowed: set<string>, ord: Order, require: bool): Option<string> {
    var line := Strip(DropBullets(raw));
    if line == [] || !require then None
    else if LabelSet(line) == {} then Some(line)
    else if KeepBullet(raw, allowed, ord, require).None? then Some(raw)
    else None
  }

  /** Judges one bullet line, and records what was wrong with it. */
  method FilterBullet(raw: string, allowed: set<string>, ord: Order, report: EnforcementReport, require: bool)
    returns (out: Option<string>)
    modifies report
    ensures out == KeepBullet(raw, allowed, ord, require)
    ensures var d := BulletDrop(raw, allowed, ord, require);
            report.dropped == old(report.dropped) + (if d.Some? then [d.value] else [])
    ensures report.fabricated == old(report.fabricated) + (LabelSet(Strip(DropBullets(raw))) - allowed)
    ensures report.total == old(report.total) && report.kept == old(report.kept)
  {
    hide Scan, Tidy, RemoveAll, Strip, DropBullets;
    var line := Strip(DropBullets(raw));
    NoTextNoMarkers(line);
    SubsetByDifference(LabelSet(line), allowed);
    if line == [] { return None; }
    var found := FindMarkers(line);
    var markers := set m | m in found;
    if require && markers == {} {
      report.dropped := report.dropped + [line];
      return None;
    }
    var fabricated := markers - allowed;
    if fabricated != {} {
      report.fabricated := report.fabricated + fabricated;
      line := RemoveMarkers(line, ord(line, fabricated));
      line := Tidy(line);
      var left := FindMarkers(line);
      var remaining := set m | m in left;
      NoTextNoMarkers(line);
      if require && remaining * allowed == {} {
        report.dropped := report.dropped + [raw];
        return None;
      }
    }
    out := if line != [] then Some(line) else None;
  }

  function Drops(lines: seq<string>, allowed: set<string>, ord: Order, require: bool): seq<Option<string>> {
    seq(|lines|, i requires 0 <= i < |lines| => BulletDrop(lines[i], allowed, ord, require))
  }

  /** The bullet lines without their bullet signs. */
  function BulletTexts(lines: seq<string>): seq<string> {
    seq(|lines|, i requires 0 <= i < |lines| => Strip(DropBullets(lines[i])))
  }

  /** Goes through the bullet lines of a section, keeping what may be kept. */
  method FilterBullets(text: string, allowed: set<string>, ord: Order, report: EnforcementReport, require: bool)
    returns (kept: seq<string>)
    modifies report
    ensures kept == KeptBullets(text, allowed, ord, require)
    ensures report.dropped == old(report.dropped) + Survivors(Drops(Lines(text), allowed, ord, require))
    ensures report.fabricated == old(report.fabricated) + Fabricated(BulletTexts(Lines(text)), allowed)
    ensures report.total == old(report.total) && report.kept == old(report.kept)
  {
    hide Lines, KeepBullet, BulletDrop, LabelSet, Strip, DropBullets, Cited;
    var lines := Lines(text);
    ghost var verdicts, drops := BulletVerdicts(lines, allowed, ord, require), Drops(lines, allowed, ord, require);
    ghost var texts := BulletTexts(lines);
    kept := [];
    NothingCited();
    for k := 0 to |lines|
      invariant kept == Survivors(verdicts[..k])
      invariant report.dropped == old(report.dropped) + Survivors(drops[..k])
      invariant report.fabricated == old(report.fabricated) + Fabricated(texts[..k], allowed)
      invariant report.total == old(report.total) && report.kept == old(report.kept)
    {
      assert verdicts[..k + 1][..k] == verdicts[..k] && drops[..k + 1][..k] == drops[..k];
      assert texts[..k + 1] == texts[..k] + [texts[k]];
      CitedSnoc(texts[..k], texts[k]);
      var out := FilterBullet(lines[k], allowed, ord, report, require);
      if out.Some? { kept := kept + [out.value]; }
    }
    assert verdicts[..|lines|] == verdicts && drops[..|lines|] == drops && texts[..|lines|] == texts;
  }

  /** What the report lists as dropped: sentences first, then bullets, section by section. */
  ghost function AllDropped(text: string, allowed: set<string>, ord: Order): seq<string> {
    var sentences := SentencesOf(SectionText(text, Answer));
    Rejected(sentences, Verdicts(sentences, allowed, ord))
    + Survivors(Drops(Lines(SectionText(text, LegalBasis)), allowed, ord, true))
    + Survivors(Drops(Lines(SectionText(text, PrivateMaterial)), allowed, ord, true))
    + Survivors(Drops(Lines(SectionText(text, Conflicts)), allowed, ord, false))
  }

  /** The markers from outside the evidence pack found in the sentences and bullets. */
  ghost function AllFabricated(text: string, allowed: set<string>): set<string> {
    Fabricated(SentencesOf(SectionText(text, Answer)), allowed)
    + Fabricated(BulletTexts(Lines(SectionText(text, LegalBasis))), allowed)
    + Fabricated(BulletTexts(Lines(SectionText(text, PrivateMaterial))), allowed)
    + Fabricated(BulletTexts(Lines(SectionText(text, Conflicts))), allowed)
  }

  /** The gate between the model and the user. */
  method EnforceGrounding(text: string, allowed: set<string>, ord: Order)
    returns (clean: EnforcedAnswer, report: EnforcementReport)
    ensures clean == EnforcedOf(text, allowed, ord)
    ensures fresh(report) && report.total == |SentencesOf(SectionText(text, Answer))|
    ensures report.kept == |KeptSentences(SectionText(text, Answer), allowed, ord)|
    ensures report.dropped == AllDropped(text, allowed, ord) && report.fabricated == AllFabricated(text, allowed)
  {
    hide SectionText, KeptSentences, KeptBullets, SentencesOf, ParseConfidence, ParseInsufficient, Cited, Strip, Join,
      Lines, Drops, Verdicts, Rejected, Survivors, Fabricated, BulletTexts;
    report := new EnforcementReport();
    var sections := SplitSections(text);
    var answer, used := FilterSection(sections[Answer], allowed, ord, report);
    var legal := FilterBullets(sections[LegalBasis], allowed, ord, report, true);
    var private := FilterBullets(sections[PrivateMaterial], allowed, ord, report, true);
    var conflicts := FilterBullets(sections[Conflicts], allowed, ord, report, false);
    var level := ParseConfidence(sections[Confidence]);
    var confidence := if level.Some? then level.value else Low;
    var insufficient := ParseInsufficient(sections[Insufficient]);
    used := used + Cited(legal + private);
    answer := Strip(answer);
    if answer == [] {
      insufficient := true;
      confidence := Low;
    }
    clean := EnforcedAnswer(answer, legal, private, conflicts, confidence, insufficient, used);
  }
}
