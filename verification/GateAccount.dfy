/**
 * The whole account of the gate, for every reply: from which lines each field of the enforced answer is taken, what
 * becomes of each sentence and bullet, and how confidence and sufficiency are read.
 */
module GateAccount {
  import opened Wrappers
  import opened Text
  import opened Spelling
  import opened Markers
  import opened Sentences
  import opened Sections
  import opened Enforce
  import opened Headings
  import opened Cleaning

  // ---------------------------------------------------------------------------
  // Choosing from a list
  // ---------------------------------------------------------------------------

  /** `kept` are the values of the verdicts that have one, in order. */
  ghost predicate Selects(verdicts: seq<Option<string>>, kept: seq<string>) {
    exists at: seq<nat> :: SelectsAt(verdicts, kept, at)
  }

  ghost predicate SelectsAt(verdicts: seq<Option<string>>, kept: seq<string>, at: seq<nat>) {
    && |at| == |kept| && (forall n, m | 0 <= n < m < |at| :: at[n] < at[m])
    && (forall n | 0 <= n < |at| :: at[n] < |verdicts| && verdicts[at[n]] == Some(kept[n]))
    && forall i | 0 <= i < |verdicts| && verdicts[i].Some? :: i in at
  }

  lemma OneMoreSelected(verdicts: seq<Option<string>>, kept: seq<string>, at: seq<nat>, x: string)
    requires SelectsAt(verdicts, kept, at)
    ensures SelectsAt(verdicts + [Some(x)], kept + [x], at + [|verdicts|])
  {
    var n: nat := |verdicts|;
    var vs, all := verdicts + [Some(x)], at + [n];
    forall i | 0 <= i < |vs| && vs[i].Some? ensures i in all {
      if i < n { assert verdicts[i].Some? && i in at; } else { assert all[|at|] == n; }
    }
  }

  lemma NoneMoreSelected(verdicts: seq<Option<string>>, kept: seq<string>, at: seq<nat>)
    requires SelectsAt(verdicts, kept, at)
    ensures SelectsAt(verdicts + [None], kept, at)
  {
  }

  lemma {:induction false} SurvivorsSelect(verdicts: seq<Option<string>>) returns (at: seq<nat>)
    ensures SelectsAt(verdicts, Survivors(verdicts), at)
  {
    if verdicts == [] {
      at := [];
    } else {
      var n := |verdicts| - 1;
      var before := SurvivorsSelect(verdicts[..n]);
      hide SelectsAt;
      assert verdicts == verdicts[..n] + [verdicts[n]];
      if verdicts[n].Some? {
        at := before + [n];
        OneMoreSelected(verdicts[..n], Survivors(verdicts[..n]), before, verdicts[n].value);
      } else {
        at := before;
        NoneMoreSelected(verdicts[..n], Survivors(verdicts[..n]), before);
      }
    }
  }

  /** The sentences kept of a section: each has met its fate. */
  ghost predicate SentencesKept(section: string, allowed: set<string>, kept: seq<string>) {
    exists verdicts :: |verdicts| == |SentencesOf(section)| && Selects(verdicts, kept)
      && forall i | 0 <= i < |verdicts| :: FateOfSentence(SentencesOf(section)[i], allowed, verdicts[i])
  }

  /** The bullets kept of a section, line by line. */
  ghost predicate BulletsKept(section: string, allowed: set<string>, require: bool, kept: seq<string>) {
    exists verdicts :: |verdicts| == |SplitLines(section)| && Selects(verdicts, kept)
      && forall i | 0 <= i < |verdicts| :: FateOfBullet(Strip(SplitLines(section)[i]), allowed, require, verdicts[i])
  }

  lemma KeptAreSentences(section: string, allowed: set<string>, ord: Order)
    requires IsOrder(ord)
    ensures SentencesKept(section, allowed, KeptSentences(section, allowed, ord))
  {
    hide SentencesOf, FateOfSentence, KeepSentence, IsOrder;
    var verdicts := Verdicts(SentencesOf(section), allowed, ord);
    var at := SurvivorsSelect(verdicts);
    forall i | 0 <= i < |verdicts| ensures FateOfSentence(SentencesOf(section)[i], allowed, verdicts[i]) {
      SentenceHasItsFate(SentencesOf(section)[i], allowed, ord);
    }
  }

  /** The verdict on every line, blank ones included. */
  ghost function LineVerdicts(lines: seq<string>, allowed: set<string>, ord: Order, require: bool)
    : seq<Option<string>>
  {
    seq(|lines|, i requires 0 <= i < |lines| => KeepBullet(Strip(lines[i]), allowed, ord, require))
  }

  lemma SurvivorsSnoc(verdicts: seq<Option<string>>, v: Option<string>)
    ensures Survivors(verdicts + [v]) == if v.Some? then Survivors(verdicts) + [v.value] else Survivors(verdicts)
  {
    assert (verdicts + [v])[..|verdicts|] == verdicts;
    assert Survivors(verdicts) + [] == Survivors(verdicts);
  }

  lemma NoSurvivors()
    ensures Survivors([]) == []
  {
  }

  lemma {:induction false} BlankLinesFallOut(lines: seq<string>, allowed: set<string>, ord: Order, require: bool)
    ensures Survivors(BulletVerdicts(Survivors(NonBlank(lines)), allowed, ord, require)) ==
            Survivors(LineVerdicts(lines, allowed, ord, require))
  {
    hide KeepBullet, Strip, Survivors;
    if lines != [] {
      var n := |lines| - 1;
      BlankLinesFallOut(lines[..n], allowed, ord, require);
      var some := Survivors(NonBlank(lines[..n]));
      var s := Strip(lines[n]);
      var verdict := KeepBullet(s, allowed, ord, require);
      assert LineVerdicts(lines, allowed, ord, require) == LineVerdicts(lines[..n], allowed, ord, require) + [verdict];
      SurvivorsSnoc(LineVerdicts(lines[..n], allowed, ord, require), verdict);
      if s == [] {
        BlankIsDropped(allowed, ord, require);
        assert NonBlank(lines) == NonBlank(lines[..n]) + [None];
        SurvivorsSnoc(NonBlank(lines[..n]), None);
      } else {
        assert NonBlank(lines) == NonBlank(lines[..n]) + [Some(s)];
        SurvivorsSnoc(NonBlank(lines[..n]), Some(s));
        assert BulletVerdicts(some + [s], allowed, ord, require) ==
               BulletVerdicts(some, allowed, ord, require) + [verdict];
        SurvivorsSnoc(BulletVerdicts(some, allowed, ord, require), verdict);
      }
    } else {
      assert NonBlank(lines) == [] && LineVerdicts(lines, allowed, ord, require) == [];
      NoSurvivors();
      assert BulletVerdicts([], allowed, ord, require) == [];
    }
  }

  lemma BlankIsDropped(allowed: set<string>, ord: Order, require: bool)
    ensures KeepBullet([], allowed, ord, require) == None
  {
    hide Scan, Collapse;
    assert Strip(DropBullets([])) == [];
  }

  lemma KeptAreBullets(section: string, allowed: set<string>, ord: Order, require: bool)
    requires IsOrder(ord)
    ensures BulletsKept(section, allowed, require, KeptBullets(section, allowed, ord, require))
  {
    hide FateOfBullet, KeepBullet, IsOrder, Strip, SplitLines, NonBlank, BulletVerdicts, Survivors;
    var lines := SplitLines(section);
    BlankLinesFallOut(lines, allowed, ord, require);
    var verdicts := LineVerdicts(lines, allowed, ord, require);
    var at := SurvivorsSelect(verdicts);
    forall i | 0 <= i < |verdicts| ensures FateOfBullet(Strip(lines[i]), allowed, require, verdicts[i]) {
      BulletHasItsFate(Strip(lines[i]), allowed, ord, require);
    }
  }

  // ---------------------------------------------------------------------------
  // Confidence and sufficiency
  // ---------------------------------------------------------------------------

  /** The whole word stands at `k`, in whatever case. */
  ghost predicate WholeWord(t: string, k: nat, w: string) {
    exists e: nat :: Reads(t, k, e, w) && (e == |t| || !WordChar(t[e]))
  }

  /** At `i` the key begins a word, and behind it, after any white space, stands the word. */
  ghost predicate KeyedWord(t: string, i: nat, key: string, w: string) {
    exists j: nat, k: nat ::
      Reads(t, i, j, key) && (i == 0 || !WordChar(t[i - 1])) && AllSpacesTo(t, j, k) && WholeWord(t, k, w)
  }

  ghost predicate NoKeyed(t: string, i: nat, key: string, words: seq<string>) {
    forall w | w in words :: !KeyedWord(t, i, key, w)
  }

  /** The first of the words to stand behind the key is `w`. */
  ghost predicate FirstKeyed(t: string, key: string, words: seq<string>, w: string) {
    exists i: nat :: w in words && KeyedWord(t, i, key, w) && forall n | 0 <= n < i :: NoKeyed(t, n, key, words)
  }

  ghost predicate NeverKeyed(t: string, key: string, words: seq<string>) {
    forall i: nat :: NoKeyed(t, i, key, words)
  }

  const LEVELS: seq<string> := ["high", "medium", "low"]

  ghost predicate IsWordItself(t: string, w: string) {
    Reads(t, 0, |t|, w)
  }

  /** The level is the word behind the key, else the word the section consists of, else low. */
  ghost predicate LevelIsTold(t: string, level: Level) {
    && (FirstKeyed(t, "confidence:", LEVELS, "high") ==> level == High)
    && (FirstKeyed(t, "confidence:", LEVELS, "medium") ==> level == Medium)
    && (FirstKeyed(t, "confidence:", LEVELS, "low") ==> level == Low)
    && (NeverKeyed(t, "confidence:", LEVELS) ==>
          && (IsWordItself(Strip(t), "high") ==> level == High)
          && (IsWordItself(Strip(t), "medium") ==> level == Medium)
          && (!IsWordItself(Strip(t), "high") && !IsWordItself(Strip(t), "medium") ==> level == Low))
  }

  /** The section says yes behind its key, or without a key somewhere. */
  ghost predicate SaysYes(t: string) {
    || FirstKeyed(t, "insufficient evidence:", ["yes", "no"], "yes")
    || (NeverKeyed(t, "insufficient evidence:", ["yes", "no"]) && Mentions(Strip(t), "yes"))
  }

  ghost predicate Small(w: string) {
    w != [] && forall k | 0 <= k < |w| :: !('A' <= w[k] <= 'Z')
  }

  /** No two of the words begin alike, none with white space. */
  ghost predicate StartApart(words: seq<string>) {
    && (forall a | 0 <= a < |words| :: Small(words[a]) && 'a' <= words[a][0] <= 'z')
    && forall a, b | 0 <= a < b < |words| :: words[a][0] != words[b][0]
  }

  lemma WholeWordIs(t: string, k: nat, w: string)
    requires Small(w)
    ensures WordAt(t, k, w) <==> WholeWord(t, k, w)
    ensures WholeWord(t, k, w) ==> k < |t| && Lower(t[k]) == w[0]
  {
    FoldedIs(t, k, k + |w|, w);
    if k + |w| < |t| { WordCharIs(t[k + |w|]); }
    if FoldsAt(t, k, w) {
      assert Lower(t[k + 0]) == w[0];
      assert Reads(t, k, k + |w|, w);
    }
    if e: nat :| Reads(t, k, e, w) && (e == |t| || !WordChar(t[e])) {
      FoldedIs(t, k, e, w);
      assert Lower(t[k + 0]) == w[0];
    }
  }

  lemma {:induction false} FirstWordIs(t: string, k: nat, words: seq<string>, w: string)
    requires StartApart(words)
    ensures FirstWordAt(t, k, words) == Some(w) <==> w in words && WholeWord(t, k, w)
  {
    hide WholeWord, WordAt;
    if words != [] {
      assert words == [words[0]] + words[1..];
      FirstWordIs(t, k, words[1..], w);
      WholeWordIs(t, k, words[0]);
      if w in words[1..] && WholeWord(t, k, w) {
        var b :| 0 <= b < |words[1..]| && words[1..][b] == w;
        assert words[b + 1] == w && Small(words[0]) && Small(words[b + 1]);
        WholeWordIs(t, k, w);
      }
    }
  }

  lemma KeyedIs(t: string, i: nat, key: string, words: seq<string>, w: string)
    requires i <= |t| && Small(key) && StartApart(words)
    ensures KeyedAt(t, i, key, words) == Some(w) <==> w in words && KeyedWord(t, i, key, w)
  {
    if i > 0 { WordCharIs(t[i - 1]); }
    forall j: nat ensures Reads(t, i, j, key) <==> FoldsAt(t, i, key) && j == i + |key| {
      FoldedIs(t, i, j, key);
    }
    hide WholeWord, FirstWordAt, Reads, AllSpacesTo;
    if FoldsAt(t, i, key) {
      var j := i + |key|;
      assert Reads(t, i, j, key);
      forall k: nat ensures k == SkipSpaces(t, j) <==> AllSpacesTo(t, j, k) {
        SkippedIs(t, j, k);
      }
      assert AllSpacesTo(t, j, SkipSpaces(t, j));
      FirstWordIs(t, SkipSpaces(t, j), words, w);
    }
  }

  lemma NothingKeyedIs(t: string, i: nat, key: string, words: seq<string>)
    requires i <= |t| && Small(key) && StartApart(words)
    ensures KeyedAt(t, i, key, words).None? <==> NoKeyed(t, i, key, words)
  {
    hide KeyedAt, KeyedWord, StartApart;
    forall w ensures KeyedAt(t, i, key, words) == Some(w) <==> w in words && KeyedWord(t, i, key, w) {
      KeyedIs(t, i, key, words, w);
    }
    if KeyedAt(t, i, key, words).Some? { assert KeyedWord(t, i, key, KeyedAt(t, i, key, words).value); }
  }

  lemma PastTheEnd(t: string, i: nat, key: string, words: seq<string>)
    requires i > |t|
    ensures NoKeyed(t, i, key, words)
  {
  }

  lemma {:induction false} SearchIs(t: string, i: nat, key: string, words: seq<string>) returns (p: nat)
    requires i <= |t| && Small(key) && StartApart(words)
    ensures Search(t, i, key, words).None? ==> forall n: nat | i <= n :: NoKeyed(t, n, key, words)
    ensures Search(t, i, key, words).Some? ==>
              var w := Search(t, i, key, words).value;
              w in words && KeyedWord(t, p, key, w) && forall n | i <= n < p :: NoKeyed(t, n, key, words)
    decreases |t| - i
  {
    hide KeyedAt, KeyedWord, StartApart, NoKeyed;
    p := i;
    NothingKeyedIs(t, i, key, words);
    if KeyedAt(t, i, key, words).Some? {
      KeyedIs(t, i, key, words, KeyedAt(t, i, key, words).value);
    } else if i == |t| {
      forall n: nat | i < n ensures NoKeyed(t, n, key, words) { PastTheEnd(t, n, key, words); }
    } else {
      p := SearchIs(t, i + 1, key, words);
    }
  }

  lemma OneFirst(t: string, key: string, words: seq<string>, p: nat, w: string, v: string)
    requires w in words && KeyedWord(t, p, key, w) && forall n | 0 <= n < p :: NoKeyed(t, n, key, words)
    requires p <= |t| && Small(key) && StartApart(words)
    ensures FirstKeyed(t, key, words, v) <==> v == w
    ensures !NeverKeyed(t, key, words)
  {
    hide KeyedWord, StartApart;
    KeyedIs(t, p, key, words, w);
    KeyedIs(t, p, key, words, v);
    if FirstKeyed(t, key, words, v) {
      var i: nat :| v in words && KeyedWord(t, i, key, v) && forall n | 0 <= n < i :: NoKeyed(t, n, key, words);
      assert i < p ==> NoKeyed(t, i, key, words);
      assert p < i ==> NoKeyed(t, p, key, words);
    }
    assert !NoKeyed(t, p, key, words);
  }

  lemma KeyIsInside(t: string, p: nat, key: string, w: string)
    requires KeyedWord(t, p, key, w)
    ensures p <= |t|
  {
  }

  /** What the search finds is the first keyed word; if it finds nothing there is none. */
  lemma FoundIsFirst(t: string, key: string, words: seq<string>, v: string)
    requires Small(key) && StartApart(words)
    ensures FirstKeyed(t, key, words, v) <==> Search(t, 0, key, words) == Some(v)
    ensures NeverKeyed(t, key, words) <==> Search(t, 0, key, words).None?
  {
    var p := SearchIs(t, 0, key, words);
    hide KeyedWord, StartApart, Search;
    if Search(t, 0, key, words).Some? {
      var w := Search(t, 0, key, words).value;
      KeyIsInside(t, p, key, w);
      OneFirst(t, key, words, p, w, v);
    } else {
      NeverMeansNoFirst(t, key, words, v);
    }
  }

  lemma NeverMeansNoFirst(t: string, key: string, words: seq<string>, v: string)
    ensures !(NeverKeyed(t, key, words) && FirstKeyed(t, key, words, v))
  {
    hide KeyedWord;
    if FirstKeyed(t, key, words, v) {
      var i: nat :| v in words && KeyedWord(t, i, key, v) && forall n | 0 <= n < i :: NoKeyed(t, n, key, words);
      assert !NoKeyed(t, i, key, words);
    }
  }

  lemma KeysAreSmall()
    ensures Header(Confidence) == "confidence:" && Header(Insufficient) == "insufficient evidence:"
    ensures Small("confidence:") && Small("insufficient evidence:") && Small("high") && Small("medium") && Small("low")
    ensures Small("yes") && StartApart(LEVELS) && StartApart(["yes", "no"])
  {
  }

  lemma LevelIsRead(t: string)
    ensures LevelIsTold(t, if ParseConfidence(t).Some? then ParseConfidence(t).value else Low)
  {
    KeysAreSmall();
    var bare := Strip(t);
    FoldedIs(bare, 0, |bare|, "high");
    FoldedIs(bare, 0, |bare|, "medium");
    FoldedIs(bare, 0, |bare|, "low");
    OneWordOnly(bare);
    hide StartApart, Small, Search, FirstKeyed, NeverKeyed, Strip, FoldsAt, Reads, Header;
    FoundIsFirst(t, "confidence:", LEVELS, "high");
    FoundIsFirst(t, "confidence:", LEVELS, "medium");
    FoundIsFirst(t, "confidence:", LEVELS, "low");
  }

  lemma OneWordOnly(t: string)
    ensures IsWordItself(t, "high") ==> |t| == 4
    ensures IsWordItself(t, "medium") ==> |t| == 6
  {
  }

  lemma YesIsRead(t: string)
    ensures ParseInsufficient(t) <==> SaysYes(t)
  {
    KeysAreSmall();
    MentionIsFound(Strip(t), "yes");
    hide StartApart, Small, Search, FirstKeyed, NeverKeyed, Strip, FoldsSomewhere, Mentions, Header;
    FoundIsFirst(t, "insufficient evidence:", ["yes", "no"], "yes");
  }

  // ---------------------------------------------------------------------------
  // The enforced answer
  // ---------------------------------------------------------------------------

  /** The text of a section, as its lines give it. */
  ghost predicate IsSection(text: string, k: Section, section: string) {
    exists at, parts :: Collects(SplitLines(text), k, at, parts) && section == Strip(Join("\n", parts))
  }

  ghost predicate ShownIn(parts: seq<string>, m: string) {
    exists p :: p in parts && Shows(p, m)
  }

  /** Every field of the enforced answer, told by the reply and the markers of the evidence pack. */
  ghost predicate IsEnforced(clean: EnforcedAnswer, text: string, allowed: set<string>) {
    exists a, l, p, c, f, s ::
      && IsSection(text, Answer, a) && IsSection(text, LegalBasis, l) && IsSection(text, PrivateMaterial, p)
      && IsSection(text, Conflicts, c) && IsSection(text, Confidence, f) && IsSection(text, Insufficient, s)
      && IsEnforcedOf(clean, allowed, a, l, p, c, f, s)
  }

  ghost predicate IsEnforcedOf(clean: EnforcedAnswer, allowed: set<string>, a: string, l: string, p: string, c: string,
                               f: string, s: string)
  {
    && (exists kept :: SentencesKept(a, allowed, kept) && clean.answer == Strip(Join(" ", kept))
          && forall m :: m in clean.used <==>
               (m in allowed && ShownIn(kept, m)) || ShownIn(clean.legalBasis, m) || ShownIn(clean.privateMaterial, m))
    && BulletsKept(l, allowed, true, clean.legalBasis) && BulletsKept(p, allowed, true, clean.privateMaterial)
    && BulletsKept(c, allowed, false, clean.conflicts)
    && (clean.answer == [] ==> clean.confidence == Low && clean.insufficient)
    && (clean.answer != [] ==> LevelIsTold(f, clean.confidence) && (clean.insufficient <==> SaysYes(s)))
  }

  lemma SectionIsTold(text: string, k: Section)
    ensures IsSection(text, k, SectionText(text, k))
  {
    hide Collects, Strip, Join, SplitLines, SectionText;
    var at, parts := SectionCollects(text, k);
  }

  lemma CitedAreShown(parts: seq<string>, m: string)
    ensures m in Cited(parts) <==> ShownIn(parts, m)
  {
    hide Shows, MarkersOf;
    if p :| p in parts && Shows(p, m) {
      LabelsAreShown(p, m);
    }
    if m in Cited(parts) {
      var p :| p in parts && m in MarkersOf(p);
      LabelsAreShown(p, m);
    }
  }

  /** What the gate makes of any reply. */
  lemma GateTells(text: string, allowed: set<string>, ord: Order)
    requires IsOrder(ord)
    ensures IsEnforced(EnforcedOf(text, allowed, ord), text, allowed)
  {
    var clean := EnforcedOf(text, allowed, ord);
    hide IsOrder, SectionText, KeptSentences, KeptBullets, ParseConfidence, ParseInsufficient, Strip, Join, Cited,
      SentencesKept, BulletsKept, LevelIsTold, SaysYes, IsSection, ShownIn;
    var a, l, p := SectionText(text, Answer), SectionText(text, LegalBasis), SectionText(text, PrivateMaterial);
    var c, f, s := SectionText(text, Conflicts), SectionText(text, Confidence), SectionText(text, Insufficient);
    forall k: Section ensures IsSection(text, k, SectionText(text, k)) { SectionIsTold(text, k); }
    KeptAreSentences(a, allowed, ord);
    KeptAreBullets(l, allowed, ord, true);
    KeptAreBullets(p, allowed, ord, true);
    KeptAreBullets(c, allowed, ord, false);
    LevelIsRead(f);
    YesIsRead(s);
    var kept := KeptSentences(a, allowed, ord);
    forall m ensures m in clean.used <==>
      (m in allowed && ShownIn(kept, m)) || ShownIn(clean.legalBasis, m) || ShownIn(clean.privateMaterial, m)
    {
      CitedAreShown(kept, m);
      CitedAreShown(clean.legalBasis, m);
      CitedAreShown(clean.privateMaterial, m);
      CitedInBoth(clean.legalBasis, clean.privateMaterial, m);
    }
    assert IsEnforcedOf(clean, allowed, a, l, p, c, f, s);
  }

  lemma CitedInBoth(a: seq<string>, b: seq<string>, m: string)
    ensures m in Cited(a + b) <==> m in Cited(a) || m in Cited(b)
  {
    hide MarkersOf;
  }
}
