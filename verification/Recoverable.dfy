/** Which of the answers that leave the gate can be read back from their rendering: all but a few, and exactly which. */
module Recoverable {
  import opened Wrappers
  import opened Text
  import opened Markers
  import opened Sentences
  import opened Sections
  import opened Enforce
  import opened AnswerFormat
  import opened Forgery
  import opened RoundTrip

  // ---------------------------------------------------------------------------
  // What is cut and cleaned has no new characters but blanks
  // ---------------------------------------------------------------------------

  ghost predicate MadeOf(s: string, t: string) {
    forall c | c in s :: c == ' ' || c in t
  }

  lemma MadeOfTrans(s: string, t: string, u: string)
    requires MadeOf(s, t) && MadeOf(t, u)
    ensures MadeOf(s, u)
  {
  }

  lemma StripMadeOf(s: string)
    ensures MadeOf(Strip(s), s)
  {
    var a, b := StripCuts(s);
    hide Strip, IsSpace;
  }

  lemma {:induction false} DropBulletsMadeOf(s: string)
    ensures MadeOf(DropBullets(s), s)
  {
    hide IsBulletChar;
    if s != [] { DropBulletsMadeOf(s[1..]); }
  }

  lemma {:induction false} RemoveMadeOf(s: string, w: string)
    ensures MadeOf(Remove(s, w), s)
    decreases |s|
  {
    if s != [] && w != [] {
      if w <= s { RemoveMadeOf(s[|w|..], w); } else { RemoveMadeOf(s[1..], w); }
    }
  }

  lemma {:induction false} RemoveAllMadeOf(s: string, ms: seq<string>)
    ensures MadeOf(RemoveAll(s, ms), s)
    decreases |ms|
  {
    hide Bracket, Remove;
    if ms != [] {
      RemoveMadeOf(s, Bracket(ms[0]));
      RemoveAllMadeOf(Remove(s, Bracket(ms[0])), ms[1..]);
    }
  }

  lemma {:induction false} CollapseMadeOf(s: string)
    ensures MadeOf(Collapse(s), s)
    decreases |s|
  {
    hide IsSpace;
    if s != [] {
      var n := SkipSpaces(s, 0);
      CollapseMadeOf(if n >= 2 then s[n..] else s[1..]);
    }
  }

  lemma CleanedMadeOf(s: string, allowed: set<string>, ord: Order)
    ensures MadeOf(Tidy(Cleaned(s, allowed, ord)), s)
  {
    hide MadeOf, Strip, Collapse, RemoveAll, LabelSet;
    var c := Cleaned(s, allowed, ord);
    RemoveAllMadeOf(s, ord(s, LabelSet(s) - allowed));
    CollapseMadeOf(c);
    StripMadeOf(Collapse(c));
    MadeOfTrans(Collapse(c), c, s);
    MadeOfTrans(Tidy(c), Collapse(c), s);
  }

  lemma SentenceMadeOf(s: string, allowed: set<string>, ord: Order)
    ensures KeepSentence(s, allowed, ord).Some? ==> MadeOf(KeepSentence(s, allowed, ord).value, s)
  {
    hide LabelSet, Cleaned, Tidy;
    CleanedMadeOf(s, allowed, ord);
  }

  lemma BulletMadeOf(raw: string, allowed: set<string>, ord: Order, require: bool)
    ensures var k := KeepBullet(raw, allowed, ord, require);
            k.Some? ==> MadeOf(k.value, raw) && k.value != [] && IsStripped(k.value)
  {
    var line := Strip(DropBullets(raw));
    DropBulletsMadeOf(raw);
    StripMadeOf(DropBullets(raw));
    CleanedMadeOf(line, allowed, ord);
    StripIsStripped(DropBullets(raw));
    StripIsStripped(Collapse(Cleaned(line, allowed, ord)));
    hide MadeOf, Strip, DropBullets, Collapse, Cleaned, LabelSet, IsStripped;
    MadeOfTrans(line, DropBullets(raw), raw);
    MadeOfTrans(Tidy(Cleaned(line, allowed, ord)), line, raw);
  }

  // ---------------------------------------------------------------------------
  // Lines and line breaks
  // ---------------------------------------------------------------------------

  lemma BlankIsNoBreak()
    ensures !IsBreak(' ')
  {
  }

  lemma MadeOfOneLine(s: string, t: string)
    requires MadeOf(s, t) && OneLine(t)
    ensures OneLine(s)
  {
    hide IsBreak;
    BlankIsNoBreak();
    forall i | 0 <= i < |s| ensures !IsBreak(s[i]) {
      assert s[i] in s;
    }
  }

  lemma MadeOfNewlinesOnly(s: string, t: string)
    requires MadeOf(s, t) && NewlinesOnly(t)
    ensures NewlinesOnly(s)
  {
    hide IsBreak;
    BlankIsNoBreak();
    forall i | 0 <= i < |s| && IsBreak(s[i]) ensures s[i] == '\n' {
      assert s[i] in s;
    }
  }

  lemma {:induction false} SplitIntoLines(t: string)
    ensures forall l | l in SplitLines(t) :: OneLine(l)
    decreases |t|
  {
    hide IsBreak;
    if t != [] {
      var n := LineEnd(t);
      if n < |t| {
        var skip := if t[n] == '\r' && n + 1 < |t| && t[n + 1] == '\n' then 2 else 1;
        SplitIntoLines(t[n + skip..]);
      }
    }
  }

  lemma LinesAreLines(text: string, line: string)
    requires line in Lines(text)
    ensures OneLine(line)
  {
    hide Strip, OneLine;
    SplitIntoLines(text);
    var all := SplitLines(text);
    SurvivorsAre(NonBlank(all));
    var i :| 0 <= i < |all| && line == Strip(all[i]);
    assert all[i] in all;
    StripMadeOf(all[i]);
    MadeOfOneLine(line, all[i]);
  }

  /** Every bullet that is kept is one line, stripped and not empty. */
  lemma KeptBulletsAreLines(text: string, allowed: set<string>, ord: Order, require: bool, s: string)
    requires s in KeptBullets(text, allowed, ord, require)
    ensures s != [] && IsStripped(s) && OneLine(s)
    ensures BulletFit(s) <==> !IsBulletChar(s[0])
  {
    hide KeepBullet, Lines, IsStripped, OneLine, IsBulletChar;
    var verdicts := BulletVerdicts(Lines(text), allowed, ord, require);
    SurvivorsAre(verdicts);
    var i :| 0 <= i < |verdicts| && verdicts[i] == Some(s);
    var raw := Lines(text)[i];
    LinesAreLines(text, raw);
    BulletMadeOf(raw, allowed, ord, require);
    MadeOfOneLine(s, raw);
  }

  lemma {:induction false} BucketLines(lines: seq<string>, current: Section, k: Section)
    requires forall l | l in lines :: OneLine(l)
    ensures forall p | p in Bucket(lines, current, k) :: OneLine(p)
    decreases |lines|
  {
    hide OneLine, HeaderOf, Remainder;
    if lines != [] {
      assert lines[0] in lines && forall l | l in lines[1..] :: l in lines;
      BucketLines(lines[1..], Switch(lines[0], current), k);
      if HeaderOf(lines[0]).Some? {
        RemainderMadeOf(lines[0], HeaderOf(lines[0]).value);
        MadeOfOneLine(Remainder(lines[0], HeaderOf(lines[0]).value), lines[0]);
      }
    }
  }

  lemma RemainderMadeOf(line: string, k: Section)
    ensures MadeOf(Remainder(line, k), line)
  {
    hide Strip, Header;
    var s := Strip(line);
    StripMadeOf(line);
    if |Header(k)| <= |s| {
      StripMadeOf(s[|Header(k)|..]);
      assert forall c | c in s[|Header(k)|..] :: c in s;
    }
  }

  lemma {:induction false} JoinedByNewlines(parts: seq<string>)
    requires forall p | p in parts :: OneLine(p)
    ensures NewlinesOnly(Join("\n", parts))
  {
    hide IsBreak;
    if parts != [] {
      assert parts[0] in parts && forall p | p in parts[1..] :: p in parts;
      JoinedByNewlines(parts[1..]);
    }
  }

  lemma SectionHasNewlinesOnly(text: string, k: Section)
    ensures NewlinesOnly(SectionText(text, k))
  {
    hide OneLine, NewlinesOnly, Strip, Join, Bucket, MadeOf;
    SplitIntoLines(text);
    var parts := Bucket(SplitLines(text), Answer, k);
    BucketLines(SplitLines(text), Answer, k);
    JoinedByNewlines(parts);
    StripMadeOf(Join("\n", parts));
    MadeOfNewlinesOnly(SectionText(text, k), Join("\n", parts));
  }

  lemma {:induction false} JoinedMadeOf(parts: seq<string>, t: string)
    requires forall p | p in parts :: MadeOf(p, t)
    ensures MadeOf(Join(" ", parts), t)
  {
    if parts != [] {
      assert parts[0] in parts && forall p | p in parts[1..] :: p in parts;
      JoinedMadeOf(parts[1..], t);
    }
  }

  lemma SentenceIsPart(text: string, s: string)
    requires s in SentencesOf(text)
    ensures MadeOf(s, text)
  {
    var t, rs := Strip(text), SentenceRanges(Strip(text));
    StripIsStripped(text);
    StripMadeOf(text);
    SentencesChain(t);
    hide IsSpace, Strip, SentenceRanges, Follows, MadeOf;
    SlicesAre(t, rs);
    var k :| 0 <= k < |rs| && SentencesOf(text)[k] == s;
    SliceMadeOf(t, rs[k].start, rs[k].stop);
    MadeOfTrans(s, t, text);
  }

  lemma SliceMadeOf(t: string, i: nat, j: nat)
    requires i <= j <= |t|
    ensures MadeOf(t[i..j], t)
  {
  }

  lemma KeptMadeOf(text: string, allowed: set<string>, ord: Order)
    ensures MadeOf(Strip(Join(" ", KeptSentences(text, allowed, ord))), text)
  {
    hide KeepSentence, SentencesOf, Strip, Join, MadeOf;
    var sentences := SentencesOf(text);
    var verdicts := Verdicts(sentences, allowed, ord);
    var kept := KeptSentences(text, allowed, ord);
    SurvivorsAre(verdicts);
    forall p | p in kept ensures MadeOf(p, text) {
      var i :| 0 <= i < |verdicts| && verdicts[i] == Some(p);
      assert sentences[i] in sentences;
      SentenceMadeOf(sentences[i], allowed, ord);
      SentenceIsPart(text, sentences[i]);
      MadeOfTrans(p, sentences[i], text);
    }
    JoinedMadeOf(kept, text);
    StripMadeOf(Join(" ", kept));
    MadeOfTrans(Strip(Join(" ", kept)), Join(" ", kept), text);
  }

  // ---------------------------------------------------------------------------
  // Which enforced answers are well formed
  // ---------------------------------------------------------------------------

  ghost predicate NoBulletSign(lines: seq<string>) {
    forall s | s in lines :: s == [] || !IsBulletChar(s[0])
  }

  lemma AnswerFits(text: string, allowed: set<string>, ord: Order)
    ensures var a := EnforcedOf(text, allowed, ord).answer;
            AnswerFit(a) <==> a != [] && NoHeaderLine(a)
  {
    hide KeptSentences, KeptBullets, SectionText, Strip, Join, ParseConfidence, ParseInsufficient, Cited,
      NewlinesOnly, SplitLines, HeaderOf, IsStripped, MadeOf;
    var section := SectionText(text, Answer);
    StripIsStripped(Join(" ", KeptSentences(section, allowed, ord)));
    KeptMadeOf(section, allowed, ord);
    SectionHasNewlinesOnly(text, Answer);
    MadeOfNewlinesOnly(EnforcedOf(text, allowed, ord).answer, section);
  }

  lemma BulletsFitExactly(text: string, allowed: set<string>, ord: Order, require: bool)
    ensures BulletsFit(KeptBullets(text, allowed, ord, require)) <==>
            NoBulletSign(KeptBullets(text, allowed, ord, require))
  {
    hide KeptBullets, BulletFit, IsBulletChar;
    var kept := KeptBullets(text, allowed, ord, require);
    forall s | s in kept ensures s != [] && (BulletFit(s) <==> !IsBulletChar(s[0])) {
      KeptBulletsAreLines(text, allowed, ord, require, s);
    }
  }

  /**
   * The answer that leaves the gate is in the form that can be read back exactly if there is answer text, no
   * line of it looks like a header, and no bullet is left with a bullet sign in front.
   */
  lemma EnforcedFits(text: string, allowed: set<string>, ord: Order)
    ensures var clean := EnforcedOf(text, allowed, ord);
            Fit(clean) <==>
              && clean.answer != [] && NoHeaderLine(clean.answer)
              && NoBulletSign(clean.legalBasis) && NoBulletSign(clean.privateMaterial) && NoBulletSign(clean.conflicts)
  {
    hide AnswerFit, BulletsFit, KeptBullets, KeptSentences, SectionText, Strip, Join, ParseConfidence,
      ParseInsufficient, NoHeaderLine, NoBulletSign, Cited;
    AnswerFits(text, allowed, ord);
    BulletsFitExactly(SectionText(text, LegalBasis), allowed, ord, true);
    BulletsFitExactly(SectionText(text, PrivateMaterial), allowed, ord, true);
    BulletsFitExactly(SectionText(text, Conflicts), allowed, ord, false);
  }

  lemma GroundedBullets(text: string, allowed: set<string>, ord: Order, require: bool)
    requires IsOrder(ord) && BulletsHarmless(text, allowed, ord, require)
    ensures var kept := KeptBullets(text, allowed, ord, require);
            NothingForeign(kept, allowed) && (require ==> AllCite(kept, allowed))
  {
    hide KeptBullets, BulletsHarmless, Cited, LabelSet, IsOrder;
    var kept := KeptBullets(text, allowed, ord, require);
    BulletsExactly(text, allowed, ord, require);
    CitedWithin(kept, allowed);
    if require {
      forall s | s in kept ensures LabelSet(s) != {} {
        KeptBulletsAreGrounded(text, allowed, ord, s);
      }
    }
  }

  /** Such an answer, if nothing was forged, is recovered field by field from its rendering. */
  lemma EnforcedIsRecovered(text: string, allowed: set<string>, ord: Order)
    requires IsOrder(ord) && NothingForged(text, allowed, ord)
    requires Fit(EnforcedOf(text, allowed, ord))
    ensures ReadsBack(EnforcedOf(text, allowed, ord), allowed, ord)
  {
    hide Fit, KeptBullets, KeptSentences, SectionText, Strip, Join, ParseConfidence, ParseInsufficient, Cited,
      Rendered, BulletsHarmless, SentencesHarmless, AllCite, NothingForeign, IsOrder;
    var clean := EnforcedOf(text, allowed, ord);
    GroundedBullets(SectionText(text, LegalBasis), allowed, ord, true);
    GroundedBullets(SectionText(text, PrivateMaterial), allowed, ord, true);
    GroundedBullets(SectionText(text, Conflicts), allowed, ord, false);
    PrintThenParse(clean, allowed, ord);
  }
}
