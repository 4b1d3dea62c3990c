/**
 * Exactly which answers are recovered from their rendering: a header line or a leading bullet sign always loses
 * text.
 */
module ReadBack {
  import opened Wrappers
  import opened Text
  import opened Markers
  import opened Sections
  import opened Enforce
  import opened AnswerFormat
  import opened Forgery
  import opened RoundTrip
  import opened Recoverable

  // ---------------------------------------------------------------------------
  // Counting what is not white space
  // ---------------------------------------------------------------------------

  function Ink(s: string): nat {
    if s == [] then 0 else (if IsSpace(s[0]) then 0 else 1) + Ink(s[1..])
  }

  function InkOf(lines: seq<string>): nat {
    if lines == [] then 0 else Ink(lines[0]) + InkOf(lines[1..])
  }

  lemma {:induction false} InkConcat(a: string, b: string)
    ensures Ink(a + b) == Ink(a) + Ink(b)
  {
    hide IsSpace;
    if a == [] {
      assert a + b == b;
    } else {
      assert (a + b)[1..] == a[1..] + b;
      InkConcat(a[1..], b);
    }
  }

  lemma {:induction false} NoInk(a: string)
    requires AllSpaces(a)
    ensures Ink(a) == 0
  {
    hide IsSpace;
    if a != [] { NoInk(a[1..]); }
  }

  lemma InkOfStrip(s: string)
    ensures Ink(Strip(s)) == Ink(s)
  {
    var a, b := StripCuts(s);
    hide Strip, IsSpace, Ink;
    InkConcat(a + Strip(s), b);
    InkConcat(a, Strip(s));
    NoInk(a);
    NoInk(b);
  }

  lemma {:induction false} InkOfConcat(a: seq<string>, b: seq<string>)
    ensures InkOf(a + b) == InkOf(a) + InkOf(b)
  {
    hide Ink;
    if a == [] {
      assert a + b == b;
    } else {
      assert (a + b)[1..] == a[1..] + b;
      InkOfConcat(a[1..], b);
    }
  }

  lemma {:induction false} InkOfJoin(lines: seq<string>)
    ensures Ink(Join("\n", lines)) == InkOf(lines)
  {
    hide Ink;
    if lines == [] {
      NothingHasNoInk();
    } else if |lines| == 1 {
      assert InkOf(lines[1..]) == 0;
    } else {
      InkOfJoin(lines[1..]);
      NewlineHasNoInk();
      InkConcat(lines[0] + "\n", Join("\n", lines[1..]));
      InkConcat(lines[0], "\n");
    }
  }

  lemma NothingHasNoInk()
    ensures Ink([]) == 0
  {
  }

  lemma NewlineHasNoInk()
    ensures Ink("\n") == 0
  {
    NewlineBreaks();
    hide IsSpace;
    NoInk("\n");
  }

  // ---------------------------------------------------------------------------
  // Header lines lose their header
  // ---------------------------------------------------------------------------

  lemma HeaderStarts(line: string)
    ensures HeaderOf(line).Some? ==> StartsFolded(Strip(line), Header(HeaderOf(line).value)) && |Strip(line)| > 0
  {
    hide Strip, StartsFolded;
    HeaderFirst(line);
  }

  lemma InkAtTheFront(s: string, n: nat)
    requires 0 < n <= |s| && !IsSpace(s[0])
    ensures Ink(s[n..]) < Ink(s)
  {
    hide IsSpace;
    InkConcat(s[..n], s[n..]);
    assert s == s[..n] + s[n..];
    assert s[..n][0] == s[0];
  }

  lemma RemainderIs(line: string, k: Section)
    requires HeaderOf(line) == Some(k)
    ensures 0 < |Header(k)| <= |Strip(line)| && !IsSpace(Strip(line)[0])
    ensures Remainder(line, k) == Strip(Strip(line)[|Header(k)|..])
  {
    HeaderStarts(line);
    HeaderIsLong(k);
    StripIsStripped(line);
    hide Strip, Header, IsSpace, HeaderOf;
  }

  lemma RemainderLoses(line: string, k: Section)
    requires HeaderOf(line) == Some(k)
    ensures Ink(Remainder(line, k)) < Ink(line)
  {
    hide Strip, Header, IsSpace, HeaderOf, Remainder, Ink;
    RemainderIs(line, k);
    InkOfStrip(line);
    InkAtTheFront(Strip(line), |Header(k)|);
    InkOfStrip(Strip(line)[|Header(k)|..]);
  }

  lemma HeaderIsLong(k: Section)
    ensures |Header(k)| > 0
  {
  }

  lemma AddsInk(line: string, current: Section, k: Section)
    ensures InkOf(Adds(line, current, k)) <= Ink(line)
    ensures HeaderOf(line).Some? ==> InkOf(Adds(line, current, k)) < Ink(line)
  {
    hide HeaderOf, Remainder, Ink;
    if HeaderOf(line).Some? {
      RemainderLoses(line, HeaderOf(line).value);
    }
    OneInk(line);
    OneInk(Remainder(line, k));
    NoLinesNoInk();
  }

  lemma OneInk(line: string)
    ensures InkOf([line]) == Ink(line)
  {
    assert [line][1..] == [];
  }

  lemma NoLinesNoInk()
    ensures InkOf([]) == 0
  {
  }

  /** A bucket holds no more than the lines, and less if one of them is a header. */
  lemma {:induction false} BucketInk(lines: seq<string>, current: Section, k: Section)
    ensures InkOf(Bucket(lines, current, k)) <= InkOf(lines)
    ensures (exists l :: l in lines && HeaderOf(l).Some?) ==> InkOf(Bucket(lines, current, k)) < InkOf(lines)
    decreases |lines|
  {
    hide HeaderOf, Adds, Ink;
    if lines != [] {
      BucketInk(lines[1..], Switch(lines[0], current), k);
      AddsInk(lines[0], current, k);
      InkOfConcat(Adds(lines[0], current, k), Bucket(lines[1..], Switch(lines[0], current), k));
      assert lines == [lines[0]] + lines[1..];
    }
  }

  /** Whatever section is being read after the answer, the blocks below it add nothing to the answer's. */
  lemma BlocksAddNothing(clean: EnforcedAnswer, current: Section)
    ensures var l, p, c := BlockLines("Legal basis:", clean.legalBasis),
              BlockLines("Supporting private material:", clean.privateMaterial),
              BlockLines("Conflicts:", clean.conflicts);
            InkOf(Bucket(l + (p + (c + LastLines(clean))), current, Answer)) == 0
  {
    TitleLegal();
    TitlePrivate();
    TitleConflicts();
    hide HeaderOf, Remainder, Bucket, Current, BlockLines, LastLines, Ink, InkOf, BlockPart, Bullets;
    var l, p, c := BlockLines("Legal basis:", clean.legalBasis),
      BlockLines("Supporting private material:", clean.privateMaterial), BlockLines("Conflicts:", clean.conflicts);
    var last := LastLines(clean);
    var k1 := if clean.legalBasis == [] then current else LegalBasis;
    var k2 := if clean.privateMaterial == [] then k1 else PrivateMaterial;
    var k3 := if clean.conflicts == [] then k2 else Conflicts;
    BlockBucket("Legal basis:", clean.legalBasis, LegalBasis, current, Answer);
    BlockBucket("Supporting private material:", clean.privateMaterial, PrivateMaterial, k1, Answer);
    BlockBucket("Conflicts:", clean.conflicts, Conflicts, k2, Answer);
    LastBucket(clean, k3, Answer);
    BucketConcat(c, last, k2, Answer);
    BucketConcat(p, c + last, k1, Answer);
    BucketConcat(l, p + (c + last), current, Answer);
    BlankParts(Bullets(clean.legalBasis), LegalBasis, current);
    BlankParts(Bullets(clean.privateMaterial), PrivateMaterial, k1);
    BlankParts(Bullets(clean.conflicts), Conflicts, k2);
    BlankHasNoInk();
    InkOfConcat(Bucket(c, k2, Answer), Bucket(last, k3, Answer));
    InkOfConcat(Bucket(p, k1, Answer), Bucket(c + last, k2, Answer));
    InkOfConcat(Bucket(l, current, Answer), Bucket(p + (c + last), k1, Answer));
    NoParts();
  }

  lemma BlankHasNoInk()
    ensures InkOf([""]) == 0 && InkOf([]) == 0
  {
    assert [""][1..] == [];
  }

  lemma NoParts()
    ensures forall a: seq<string> :: a + [] == a && [] + a == a
  {
  }

  lemma BlankParts(bullets: seq<string>, own: Section, current: Section)
    requires own != Answer
    ensures InkOf(BlockPart(bullets, own, current, Answer)) == 0
  {
    hide InkOf;
    BlankHasNoInk();
    NoParts();
  }

  lemma LaidRejoins(answer: string)
    requires AnswerLaid(answer)
    ensures Join("\n", SplitLines(answer)) == answer
  {
    SpacelessEndIsNoBreak(answer);
    LinesRejoin(answer);
  }

  lemma RenderedInParts(clean: EnforcedAnswer)
    ensures RenderedLines(clean) ==
            (["Answer:"] + SplitLines(clean.answer))
            + (BlockLines("Legal basis:", clean.legalBasis)
               + (BlockLines("Supporting private material:", clean.privateMaterial)
                  + (BlockLines("Conflicts:", clean.conflicts) + LastLines(clean))))
  {
    hide SplitLines, BlockLines, LastLines;
  }

  lemma ReadAsAnswer(clean: EnforcedAnswer)
    requires SplitLines(Rendered(clean)) == RenderedLines(clean)
    ensures SectionText(Rendered(clean), Answer) == Strip(Join("\n", Bucket(RenderedLines(clean), Answer, Answer)))
  {
    hide Rendered, RenderedLines, SplitLines, Bucket, Strip, Join;
  }

  /** With a header line in it, an answer does not come back. */
  lemma HeaderLineIsLost(clean: EnforcedAnswer)
    requires Laid(clean) && SectionText(Rendered(clean), Answer) == clean.answer
    ensures NoHeaderLine(clean.answer)
  {
    RenderedSplits(clean);
    LaidRejoins(clean.answer);
    TitleAnswer();
    hide Laid, Rendered, RenderedLines, SectionText, SplitLines, HeaderOf, Remainder, Strip, Join, Bucket, Current,
      BlockLines, LastLines, Ink, InkOf, NewlinesOnly, IsStripped, IsBreak, OneLine;
    var head, body := ["Answer:"], SplitLines(clean.answer);
    var rest := BlockLines("Legal basis:", clean.legalBasis)
                + (BlockLines("Supporting private material:", clean.privateMaterial)
                   + (BlockLines("Conflicts:", clean.conflicts) + LastLines(clean)));
    var bucket := Bucket(RenderedLines(clean), Answer, Answer);
    OneLineBucket("Answer:", Answer, Answer);
    RenderedInParts(clean);
    ReadAsAnswer(clean);
    BucketConcat(head + body, rest, Answer, Answer);
    BucketConcat(head, body, Answer, Answer);
    BlocksAddNothing(clean, Current(head + body, Answer));
    InkOfConcat(Bucket(head + body, Answer, Answer), Bucket(rest, Current(head + body, Answer), Answer));
    InkOfConcat(Bucket(head, Answer, Answer), Bucket(body, Answer, Answer));
    NoLinesNoInk();
    BucketInk(body, Answer, Answer);
    InkOfJoin(bucket);
    InkOfStrip(Join("\n", bucket));
    InkOfJoin(body);
  }

  /** Without answer text a notice is shown, and read back as the answer. */
  lemma NoticeIsReadBack(clean: EnforcedAnswer)
    requires clean.answer == []
    requires BulletsLaid(clean.legalBasis) && BulletsLaid(clean.privateMaterial) && BulletsLaid(clean.conflicts)
    ensures SectionText(Rendered(clean), Answer) == NO_ANSWER != []
  {
    var shown := clean.(answer := NO_ANSWER);
    NoticeIsFit();
    assert Rendered(clean) == Rendered(shown) by { hide Join, Block, Shout, YesNo; }
    hide Rendered, NO_ANSWER, Bucket, Join, Strip, SplitLines, AnswerLaid, NoHeaderLine, BulletsLaid, RenderedLines;
    RenderedSplits(shown);
    RenderedBuckets(shown, Answer);
    AnswerRecovered(NO_ANSWER);
  }

  lemma NoticeIsFit()
    ensures AnswerLaid(NO_ANSWER) && NoHeaderLine(NO_ANSWER) && NO_ANSWER != []
  {
    var t := NO_ANSWER;
    NoticeIsOneLine();
    hide NO_ANSWER, OneLine, IsSpace, IsBreak;
    LineEndOf(t, []);
    assert t + [] == t;
    assert SplitLines(t) == [t];
    StripKeepsStripped(t);
    hide Strip;
    HeaderIsNotN(t);
  }

  lemma NoticeIsOneLine()
    ensures OneLine(NO_ANSWER) && NewlinesOnly(NO_ANSWER) && IsStripped(NO_ANSWER)
    ensures NO_ANSWER != [] && NO_ANSWER[0] == 'N'
  {
    var a, b, c := "No grounded ", "answer could ", "be produced.";
    assert NO_ANSWER == a + b + c && a[0] == 'N' && c[|c| - 1] == '.';
    assert !IsSpace('N') && !IsSpace('.');
    assert OneLine(a);
    assert OneLine(b);
    assert OneLine(c);
    hide IsSpace, IsBreak, NO_ANSWER;
    OneLineConcat(a, b);
    OneLineConcat(a + b, c);
  }

  lemma HeaderIsNotN(line: string)
    requires Strip(line) == line && line != [] && line[0] == 'N'
    ensures HeaderOf(line) == None
  {
    hide Strip;
    assert forall k: Section :: Header(k) != [] && Header(k)[0] != 'n';
  }

  // ---------------------------------------------------------------------------
  // Bullet signs and foreign markers lose characters
  // ---------------------------------------------------------------------------

  lemma StripShortens(s: string)
    ensures |Strip(s)| <= |s|
  {
    var a, b := StripCuts(s);
    hide Strip;
  }

  lemma {:induction false} DropShortens(s: string)
    ensures |DropBullets(s)| <= |s|
    ensures s != [] && IsBulletChar(s[0]) ==> |DropBullets(s)| < |s|
  {
    hide IsBulletChar;
    if s != [] { DropShortens(s[1..]); }
  }

  lemma {:induction false} RemoveShortens(s: string, w: string)
    ensures |Remove(s, w)| <= |s|
    decreases |s|
  {
    if s != [] && w != [] {
      if w <= s { RemoveShortens(s[|w|..], w); } else { RemoveShortens(s[1..], w); }
    }
  }

  lemma {:induction false} RemoveCuts(s: string, w: string, i: nat)
    requires w != [] && Occurs(s, i, w)
    ensures |Remove(s, w)| < |s|
    decreases |s|
  {
    if i == 0 { assert s[0..|w|] == w; }
    if w <= s {
      RemoveShortens(s[|w|..], w);
    } else {
      assert s[1..][i - 1..i - 1 + |w|] == s[i..i + |w|];
      RemoveCuts(s[1..], w, i - 1);
    }
  }

  lemma {:induction false} RemoveAllShortens(s: string, ms: seq<string>)
    ensures |RemoveAll(s, ms)| <= |s|
    decreases |ms|
  {
    hide Remove, Bracket;
    if ms != [] {
      RemoveShortens(s, Bracket(ms[0]));
      RemoveAllShortens(Remove(s, Bracket(ms[0])), ms[1..]);
    }
  }

  lemma {:induction false} CollapseShortens(s: string)
    ensures |Collapse(s)| <= |s|
    decreases |s|
  {
    hide IsSpace;
    if s != [] {
      var n := SkipSpaces(s, 0);
      CollapseShortens(if n >= 2 then s[n..] else s[1..]);
    }
  }

  lemma CleaningShortens(s: string, allowed: set<string>, ord: Order)
    requires IsOrder(ord)
    ensures |Tidy(Cleaned(s, allowed, ord))| <= |s|
    ensures !(LabelSet(s) <= allowed) ==> |Tidy(Cleaned(s, allowed, ord))| < |s|
  {
    var foreign := LabelSet(s) - allowed;
    var ms := ord(s, foreign);
    var c := Cleaned(s, allowed, ord);
    assert forall m :: m in ms <==> m in foreign;
    SubsetByDifference(LabelSet(s), allowed);
    hide Strip, Collapse, Scan, IsOrder, RemoveAll;
    StripShortens(Collapse(c));
    CollapseShortens(c);
    RemoveAllShortens(s, ms);
    if m :| m in foreign {
      assert m in ms && ms[0] in ms;
      ForeignIsCut(s, ms);
    }
  }

  lemma ForeignIsCut(s: string, ms: seq<string>)
    requires ms != [] && ms[0] in MarkersOf(s)
    ensures |RemoveAll(s, ms)| < |s|
  {
    hide Scan, Remove, IsLabel;
    MarkersAreOccurrences(s, ms[0]);
    var i: nat :| Occurs(s, i, Bracket(ms[0]));
    RemoveCuts(s, Bracket(ms[0]), i);
    RemoveAllShortens(Remove(s, Bracket(ms[0])), ms[1..]);
  }

  lemma SignsDropped(s: string)
    ensures DropBullets("- " + s) == DropBullets(s)
  {
    var raw := "- " + s;
    assert raw[0] == '-' && raw[1..] == " " + s && (" " + s)[1..] == s;
    assert DropBullets(" " + s) == DropBullets(s);
  }

  /** A bullet that comes back had no sign of its own and no foreign marker, and a marker where one is needed. */
  lemma BulletCameBack(s: string, allowed: set<string>, ord: Order, require: bool)
    requires IsOrder(ord) && BulletLaid(s) && KeepBullet("- " + s, allowed, ord, require) == Some(s)
    ensures BulletFit(s) && LabelSet(s) <= allowed && (require ==> LabelSet(s) != {})
  {
    SignsDropped(s);
    DropShortens(s);
    StripShortens(DropBullets(s));
    CleaningShortens(Strip(DropBullets(s)), allowed, ord);
    StripKeepsStripped(s);
    hide Strip, Tidy, Cleaned, LabelSet, IsStripped, OneLine, IsBulletChar, IsOrder;
    assert IsBulletChar(s[0]) || DropBullets(s) == s;
  }

  lemma {:induction false} FullSurvivors(vs: seq<Option<string>>, xs: seq<string>)
    requires Survivors(vs) == xs && |xs| == |vs|
    ensures vs == AllSome(xs)
  {
    if vs != [] {
      var n := |vs| - 1;
      SurvivorsAre(vs[..n]);
      assert vs[n].Some?;
      assert xs == Survivors(vs[..n]) + [vs[n].value];
      FullSurvivors(vs[..n], xs[..n]);
      assert vs == vs[..n] + [vs[n]];
      forall i | 0 <= i < |xs| ensures vs[i] == AllSome(xs)[i] {
        if i < n { assert AllSome(xs[..n])[i] == vs[..n][i]; }
      }
    }
  }

  lemma BulletsCameBack(lines: seq<string>, allowed: set<string>, ord: Order, require: bool)
    requires IsOrder(ord) && BulletsLaid(lines)
    requires KeptBullets(Strip(Join("\n", Closed(Bullets(lines)))), allowed, ord, require) == lines
    ensures BulletsFit(lines) && NothingForeign(lines, allowed) && (require ==> AllCite(lines, allowed))
  {
    hide Strip, Join, LabelSet, Lines, BulletLaid, BulletFit, Bullets, Closed, Survivors, KeepBullet, IsOrder;
    BulletLines(lines);
    BulletsAt(lines);
    var vs := BulletVerdicts(Bullets(lines), allowed, ord, require);
    FullSurvivors(vs, lines);
    forall s | s in lines ensures BulletFit(s) && LabelSet(s) <= allowed && (require ==> LabelSet(s) != {}) {
      var i :| 0 <= i < |lines| && lines[i] == s;
      assert vs[i] == AllSome(lines)[i] == Some(s);
      assert BulletLaid(s);
      BulletCameBack(s, allowed, ord, require);
    }
  }

  // ---------------------------------------------------------------------------
  // Exactly when
  // ---------------------------------------------------------------------------

  ghost predicate BulletsInPack(clean: EnforcedAnswer, allowed: set<string>) {
    && AllCite(clean.legalBasis, allowed) && AllCite(clean.privateMaterial, allowed)
    && NothingForeign(clean.conflicts, allowed)
  }

  /** Every field comes back exactly if the answer is well formed and its bullets show pack markers only. */
  lemma ReadsBackExactly(clean: EnforcedAnswer, allowed: set<string>, ord: Order)
    requires IsOrder(ord) && Laid(clean)
    ensures ReadsBack(clean, allowed, ord) <==> Fit(clean) && BulletsInPack(clean, allowed)
  {
    hide AnswerLaid, NoHeaderLine, BulletsLaid, BulletsFit, AllCite, NothingForeign, KeptBullets, SectionText,
      IsOrder, ParseConfidence, ParseInsufficient, Rendered;
    if Fit(clean) && BulletsInPack(clean, allowed) {
      PrintThenParse(clean, allowed, ord);
    }
    if ReadsBack(clean, allowed, ord) {
      HeaderLineIsLost(clean);
      SectionsAre(clean);
      BulletsCameBack(clean.legalBasis, allowed, ord, true);
      BulletsCameBack(clean.privateMaterial, allowed, ord, true);
      BulletsCameBack(clean.conflicts, allowed, ord, false);
    }
  }

  lemma SectionsAre(clean: EnforcedAnswer)
    requires Laid(clean) && NoHeaderLine(clean.answer)
    ensures var text := Rendered(clean);
            && SectionText(text, LegalBasis) == Strip(Join("\n", Closed(Bullets(clean.legalBasis))))
            && SectionText(text, PrivateMaterial) == Strip(Join("\n", Closed(Bullets(clean.privateMaterial))))
            && SectionText(text, Conflicts) == Strip(Join("\n", Closed(Bullets(clean.conflicts))))
  {
    hide Laid, NoHeaderLine, Rendered, RenderedLines, Bucket, Strip, Join, SplitLines, Closed, Bullets;
    RenderedSplits(clean);
    RenderedBuckets(clean, LegalBasis);
    RenderedBuckets(clean, PrivateMaterial);
    RenderedBuckets(clean, Conflicts);
  }

  /**
   * Which answers that leave the gate are recovered, read off the answers alone: those with answer text, no header
   * line in it, no bullet sign left in front of a bullet, and no marker forged in one.
   */
  lemma EnforcedReadsBackExactly(text: string, allowed: set<string>, ord: Order)
    requires IsOrder(ord)
    ensures var clean := EnforcedOf(text, allowed, ord);
            ReadsBack(clean, allowed, ord) <==>
              && clean.answer != [] && NoHeaderLine(clean.answer)
              && NoBulletSign(clean.legalBasis) && NoBulletSign(clean.privateMaterial) && NoBulletSign(clean.conflicts)
              && BulletsHarmless(SectionText(text, LegalBasis), allowed, ord, true)
              && BulletsHarmless(SectionText(text, PrivateMaterial), allowed, ord, true)
              && BulletsHarmless(SectionText(text, Conflicts), allowed, ord, false)
  {
    hide AnswerLaid, NoHeaderLine, BulletsFit, NoBulletSign, AllCite, NothingForeign, KeptBullets, KeptSentences,
      SectionText, IsOrder, ParseConfidence, ParseInsufficient, Rendered, BulletsHarmless, Cited, Strip, Join,
      BulletsLaid;
    var clean := EnforcedOf(text, allowed, ord);
    KeptAreLaid(SectionText(text, LegalBasis), allowed, ord, true);
    KeptAreLaid(SectionText(text, PrivateMaterial), allowed, ord, true);
    KeptAreLaid(SectionText(text, Conflicts), allowed, ord, false);
    PackBullets(SectionText(text, LegalBasis), allowed, ord, true);
    PackBullets(SectionText(text, PrivateMaterial), allowed, ord, true);
    PackBullets(SectionText(text, Conflicts), allowed, ord, false);
    EnforcedFits(text, allowed, ord);
    if clean.answer == [] {
      NoticeIsReadBack(clean);
    } else {
      AnswerIsLaid(text, allowed, ord);
      ReadsBackExactly(clean, allowed, ord);
    }
  }

  lemma KeptAreLaid(text: string, allowed: set<string>, ord: Order, require: bool)
    ensures BulletsLaid(KeptBullets(text, allowed, ord, require))
  {
    hide KeptBullets, IsStripped, OneLine;
    forall s | s in KeptBullets(text, allowed, ord, require) ensures BulletLaid(s) {
      KeptBulletsAreLines(text, allowed, ord, require, s);
    }
  }

  lemma PackBullets(text: string, allowed: set<string>, ord: Order, require: bool)
    requires IsOrder(ord)
    ensures var kept := KeptBullets(text, allowed, ord, require);
            && (BulletsHarmless(text, allowed, ord, require) <==> NothingForeign(kept, allowed))
            && (require ==> (BulletsHarmless(text, allowed, ord, require) <==> AllCite(kept, allowed)))
  {
    hide KeptBullets, BulletsHarmless, Cited, LabelSet, IsOrder;
    var kept := KeptBullets(text, allowed, ord, require);
    BulletsExactly(text, allowed, ord, require);
    CitedWithin(kept, allowed);
    if BulletsHarmless(text, allowed, ord, require) { GroundedBullets(text, allowed, ord, require); }
  }

  lemma AnswerIsLaid(text: string, allowed: set<string>, ord: Order)
    requires EnforcedOf(text, allowed, ord).answer != []
    ensures AnswerLaid(EnforcedOf(text, allowed, ord).answer)
  {
    hide KeptSentences, KeptBullets, SectionText, Strip, Join, ParseConfidence, ParseInsufficient, Cited,
      NewlinesOnly, IsStripped, MadeOf;
    var section := SectionText(text, Answer);
    StripIsStripped(Join(" ", KeptSentences(section, allowed, ord)));
    KeptMadeOf(section, allowed, ord);
    SectionHasNewlinesOnly(text, Answer);
    MadeOfNewlinesOnly(EnforcedOf(text, allowed, ord).answer, section);
  }
}
