/** Rendering the enforced answer, and reading a rendered answer back. */
module AnswerFormat {
  import opened Text
  import opened Markers
  import opened Sections
  import opened Enforce

  const NO_ANSWER := "No grounded answer could be produced."

  function Shout(l: Level): string {
    match l
    case Low => "LOW"
    case Medium => "MEDIUM"
    case High => "HIGH"
  }

  function YesNo(b: bool): string {
    if b then "YES" else "NO"
  }

  function Bullets(lines: seq<string>): seq<string> {
    if lines == [] then [] else ["- " + lines[0]] + Bullets(lines[1..])
  }

  function Block(title: string, lines: seq<string>): seq<string> {
    if lines == [] then [] else ["\n" + title] + Bullets(lines)
  }

  function RenderParts(clean: EnforcedAnswer): seq<string> {
    ["Answer:", if clean.answer == [] then NO_ANSWER else clean.answer]
    + Block("Legal basis:", clean.legalBasis)
    + Block("Supporting private material:", clean.privateMaterial)
    + Block("Conflicts:", clean.conflicts)
    + ["\nConfidence: " + Shout(clean.confidence), "Insufficient evidence: " + YesNo(clean.insufficient)]
  }

  function Rendered(clean: EnforcedAnswer): string {
    Join("\n", RenderParts(clean))
  }

  lemma {:induction false} BulletsSnoc(lines: seq<string>, x: string)
    ensures Bullets(lines + [x]) == Bullets(lines) + ["- " + x]
  {
    if lines == [] {
      assert [x][1..] == [];
    } else {
      assert (lines + [x])[1..] == lines[1..] + [x] && (lines + [x])[0] == lines[0];
      BulletsSnoc(lines[1..], x);
    }
  }

  method AppendBlock(parts: seq<string>, title: string, lines: seq<string>) returns (out: seq<string>)
    ensures out == parts + Block(title, lines)
  {
    out := parts;
    if lines == [] { return; }
    out := out + ["\n" + title];
    for k := 0 to |lines|
      invariant out == parts + ["\n" + title] + Bullets(lines[..k])
    {
      assert lines[..k + 1] == lines[..k] + [lines[k]];
      BulletsSnoc(lines[..k], lines[k]);
      out := out + ["- " + lines[k]];
    }
    assert lines[..|lines|] == lines;
  }

  /** The canonical layout: answer, the blocks that are not empty, confidence, sufficiency. */
  method FormatAnswer(clean: EnforcedAnswer) returns (text: string)
    ensures text == Rendered(clean)
  {
    hide Join, Block, NO_ANSWER;
    var parts := ["Answer:"];
    parts := parts + [if clean.answer == [] then NO_ANSWER else clean.answer];
    parts := AppendBlock(parts, "Legal basis:", clean.legalBasis);
    parts := AppendBlock(parts, "Supporting private material:", clean.privateMaterial);
    parts := AppendBlock(parts, "Conflicts:", clean.conflicts);
    parts := parts + ["\nConfidence: " + Shout(clean.confidence)];
    parts := parts + ["Insufficient evidence: " + YesNo(clean.insufficient)];
    assert parts == RenderParts(clean);
    text := Join("\n", parts);
  }

  // ---------------------------------------------------------------------------
  // The markers of a rendered answer
  // ---------------------------------------------------------------------------

  lemma PlainText(s: string)
    requires '[' !in s
    ensures LabelSet(s) == {}
  {
    NothingOpens(s);
  }

  lemma PlainTitles()
    ensures '[' !in "Answer:" && '[' !in "\nLegal basis:" && '[' !in "\nConflicts:"
  {
  }

  lemma PlainPrivateTitle()
    ensures '[' !in "\nSupporting private material:"
  {
  }

  lemma PlainNoAnswer()
    ensures '[' !in NO_ANSWER
  {
  }

  lemma PlainConfidence(l: Level)
    ensures '[' !in "\nConfidence: " + Shout(l)
  {
    assert '[' !in "\nConfidence: ";
  }

  lemma PlainSufficiency(b: bool)
    ensures '[' !in "Insufficient evidence: " + YesNo(b)
  {
    assert '[' !in "Insufficient evidence: ";
  }

  lemma ConstantsHaveNoMarkers(clean: EnforcedAnswer)
    ensures LabelSet("Answer:") == {} && LabelSet(NO_ANSWER) == {}
    ensures LabelSet("\nLegal basis:") == LabelSet("\nSupporting private material:") == LabelSet("\nConflicts:") == {}
    ensures LabelSet("\nConfidence: " + Shout(clean.confidence)) == {}
    ensures LabelSet("Insufficient evidence: " + YesNo(clean.insufficient)) == {}
  {
    hide LabelSet, NO_ANSWER, Shout, YesNo;
    PlainTitles();
    PlainPrivateTitle();
    PlainNoAnswer();
    PlainConfidence(clean.confidence);
    PlainSufficiency(clean.insufficient);
    PlainText("Answer:");
    PlainText(NO_ANSWER);
    PlainText("\nLegal basis:");
    PlainText("\nSupporting private material:");
    PlainText("\nConflicts:");
    PlainText("\nConfidence: " + Shout(clean.confidence));
    PlainText("Insufficient evidence: " + YesNo(clean.insufficient));
  }

  lemma CitedConcat(a: seq<string>, b: seq<string>)
    ensures Cited(a + b) == Cited(a) + Cited(b)
  {
    hide Scan;
  }

  lemma {:induction false} BulletsCite(lines: seq<string>)
    ensures Cited(Bullets(lines)) == Cited(lines)
  {
    hide Scan, Cited, Separates;
    if lines == [] {
    } else {
      BulletsCite(lines[1..]);
      NewlineSeparates();
      assert "- " + lines[0] == "-" + [' '] + lines[0];
      ScanAcross("-", ' ', lines[0]);
      NothingOpens("-");
      CitedConcat(["- " + lines[0]], Bullets(lines[1..]));
      CitedConcat([lines[0]], lines[1..]);
      CitedOne("- " + lines[0]);
      CitedOne(lines[0]);
      assert lines == [lines[0]] + lines[1..];
    }
  }

  lemma CitedOne(p: string)
    ensures Cited([p]) == LabelSet(p)
  {
    hide Scan;
  }

  lemma BlockCites(title: string, lines: seq<string>)
    requires LabelSet("\n" + title) == {}
    ensures Cited(Block(title, lines)) == Cited(lines)
  {
    hide Scan, Cited, LabelSet;
    BulletsCite(lines);
    CitedOne("\n" + title);
    CitedConcat(["\n" + title], Bullets(lines));
  }

  lemma JoinedLabels(parts: seq<string>)
    ensures LabelSet(Join("\n", parts)) == Cited(parts)
  {
    hide Scan, Join, Separates;
    NewlineSeparates();
    assert ['\n'] == "\n";
    JoinMarkers('\n', parts);
    AllMarkersAre(parts);
  }

  lemma BlocksCite(clean: EnforcedAnswer)
    ensures Cited(Block("Legal basis:", clean.legalBasis)) == Cited(clean.legalBasis)
    ensures Cited(Block("Supporting private material:", clean.privateMaterial)) == Cited(clean.privateMaterial)
    ensures Cited(Block("Conflicts:", clean.conflicts)) == Cited(clean.conflicts)
  {
    hide Cited, LabelSet, Block;
    ConstantsHaveNoMarkers(clean);
    assert "\n" + "Legal basis:" == "\nLegal basis:";
    assert "\n" + "Supporting private material:" == "\nSupporting private material:";
    assert "\n" + "Conflicts:" == "\nConflicts:";
    BlockCites("Legal basis:", clean.legalBasis);
    BlockCites("Supporting private material:", clean.privateMaterial);
    BlockCites("Conflicts:", clean.conflicts);
  }

  lemma CitedFive(a: seq<string>, b: seq<string>, c: seq<string>, d: seq<string>, e: seq<string>)
    ensures Cited(a + b + c + d + e) == Cited(a) + Cited(b) + Cited(c) + Cited(d) + Cited(e)
  {
    hide Cited;
    CitedConcat(a, b);
    CitedConcat(a + b, c);
    CitedConcat(a + b + c, d);
    CitedConcat(a + b + c + d, e);
  }

  /** A rendered answer shows the markers of its answer text and of its bullets, and no others. */
  lemma RenderedLabels(clean: EnforcedAnswer)
    ensures LabelSet(Rendered(clean)) ==
            LabelSet(clean.answer) + Cited(clean.legalBasis) + Cited(clean.privateMaterial) + Cited(clean.conflicts)
  {
    hide Cited, LabelSet, Join, Block, NO_ANSWER, Shout, YesNo;
    ConstantsHaveNoMarkers(clean);
    NoTextNoMarkers(clean.answer);
    BlocksCite(clean);
    JoinedLabels(RenderParts(clean));
    var answer := if clean.answer == [] then NO_ANSWER else clean.answer;
    var confidence, sufficiency :=
      "\nConfidence: " + Shout(clean.confidence), "Insufficient evidence: " + YesNo(clean.insufficient);
    CitedPair("Answer:", answer);
    CitedPair(confidence, sufficiency);
    CitedFive(["Answer:", answer], Block("Legal basis:", clean.legalBasis),
              Block("Supporting private material:", clean.privateMaterial), Block("Conflicts:", clean.conflicts),
              [confidence, sufficiency]);
  }

  lemma CitedPair(p: string, q: string)
    ensures Cited([p, q]) == LabelSet(p) + LabelSet(q)
  {
    hide Scan;
  }

  lemma StripLabels(s: string)
    ensures LabelSet(Strip(s)) == LabelSet(s)
  {
    StripMarkers(s);
  }

  lemma BlankJoinLabels(parts: seq<string>)
    ensures LabelSet(Join(" ", parts)) == Cited(parts)
  {
    hide Scan, Join, Separates;
    NewlineSeparates();
    assert [' '] == " ";
    JoinMarkers(' ', parts);
    AllMarkersAre(parts);
  }

  lemma AnswerLabels(text: string, allowed: set<string>, ord: Order)
    ensures LabelSet(EnforcedOf(text, allowed, ord).answer) ==
            Cited(KeptSentences(SectionText(text, Answer), allowed, ord))
  {
    hide Scan, Cited, LabelSet, Join, Strip, SectionText, KeptSentences, KeptBullets, ParseConfidence,
      ParseInsufficient;
    var kept := KeptSentences(SectionText(text, Answer), allowed, ord);
    StripLabels(Join(" ", kept));
    BlankJoinLabels(kept);
  }

  /**
   * If no marker from outside the evidence pack directly follows an open `[`, `[S` or `[S<digits>`, then what
   * the user sees cites the evidence pack and nothing else, and the answer keeps every citation of the evidence
   * pack that its section had.
   */
  lemma RenderedIsGrounded(text: string, allowed: set<string>, ord: Order)
    requires IsOrder(ord) && Wedged(IDLE, text) <= allowed
    ensures var clean := EnforcedOf(text, allowed, ord);
            && LabelSet(Rendered(clean)) <= allowed
            && LabelSet(clean.answer) == LabelSet(SectionText(text, Answer)) * allowed
            && clean.used == LabelSet(clean.answer) + Cited(clean.legalBasis) + Cited(clean.privateMaterial)
  {
    hide Scan, Wedged, Cited, LabelSet, SectionText, KeptSentences, KeptBullets, ParseConfidence, ParseInsufficient,
      IsOrder, Rendered;
    var clean := EnforcedOf(text, allowed, ord);
    forall k: Section ensures Wedged(IDLE, SectionText(text, k)) <= allowed {
      SectionInherits(text, k);
    }
    AnswerLabels(text, allowed, ord);
    KeptSentencesCite(SectionText(text, Answer), allowed, ord);
    KeptBulletsCite(SectionText(text, LegalBasis), allowed, ord, true);
    KeptBulletsCite(SectionText(text, PrivateMaterial), allowed, ord, true);
    KeptBulletsCite(SectionText(text, Conflicts), allowed, ord, false);
    CitedConcat(clean.legalBasis, clean.privateMaterial);
    RenderedLabels(clean);
  }

  /** Whatever the text, an answer that is not empty cites the evidence pack. */
  lemma AnswerCitesPack(text: string, allowed: set<string>, ord: Order)
    requires EnforcedOf(text, allowed, ord).answer != []
    ensures LabelSet(EnforcedOf(text, allowed, ord).answer) * allowed != {}
    ensures EnforcedOf(text, allowed, ord).used * allowed != {}
  {
    hide Scan, LabelSet, SectionText, KeptSentences, KeptBullets, ParseConfidence, ParseInsufficient, Strip;
    var kept := KeptSentences(SectionText(text, Answer), allowed, ord);
    AnswerLabels(text, allowed, ord);
    if kept == [] {
      NothingStripsToNothing();
    } else {
      assert kept[0] in kept;
      KeptSentencesAreGrounded(SectionText(text, Answer), allowed, ord, kept[0]);
      var m :| m in LabelSet(kept[0]) * allowed;
      LabelIsMarker(kept[0], m);
      assert m in Cited(kept) * allowed;
    }
  }

  lemma NothingStripsToNothing()
    ensures Strip([]) == []
  {
  }

  lemma LabelIsMarker(s: string, m: string)
    requires m in LabelSet(s)
    ensures m in MarkersOf(s)
  {
  }
}
