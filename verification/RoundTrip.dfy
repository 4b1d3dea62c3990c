/** Reading a rendered answer back recovers every field of it. */
module RoundTrip {
  import opened Wrappers
  import opened Text
  import opened Sections
  import opened Enforce
  import opened AnswerFormat

  // ---------------------------------------------------------------------------
  // Which answers
  // ---------------------------------------------------------------------------

  /** One stripped line with something in it. */
  ghost predicate BulletLaid(s: string) {
    s != [] && IsStripped(s) && OneLine(s)
  }

  ghost predicate BulletsLaid(lines: seq<string>) {
    forall s | s in lines :: BulletLaid(s)
  }

  /** A bullet that does not begin with a bullet sign of its own. */
  ghost predicate BulletFit(s: string) {
    BulletLaid(s) && !IsBulletChar(s[0])
  }

  ghost predicate BulletsFit(lines: seq<string>) {
    forall s | s in lines :: BulletFit(s)
  }

  ghost predicate NewlinesOnly(s: string) {
    forall i | 0 <= i < |s| && IsBreak(s[i]) :: s[i] == '\n'
  }

  /** A stripped answer, broken into lines by newlines only. */
  ghost predicate AnswerLaid(s: string) {
    s != [] && IsStripped(s) && NewlinesOnly(s)
  }

  ghost predicate NoHeaderLine(answer: string) {
    forall l | l in SplitLines(answer) :: HeaderOf(l).None?
  }

  /** An answer with no line that looks like a header. */
  ghost predicate AnswerFit(s: string) {
    AnswerLaid(s) && NoHeaderLine(s)
  }

  /** As every answer that leaves the gate with some answer text. */
  ghost predicate Laid(clean: EnforcedAnswer) {
    && AnswerLaid(clean.answer)
    && BulletsLaid(clean.legalBasis) && BulletsLaid(clean.privateMaterial) && BulletsLaid(clean.conflicts)
  }

  ghost predicate Fit(clean: EnforcedAnswer) {
    && AnswerFit(clean.answer)
    && BulletsFit(clean.legalBasis) && BulletsFit(clean.privateMaterial) && BulletsFit(clean.conflicts)
  }

  lemma FitIsLaid(clean: EnforcedAnswer)
    ensures Fit(clean) ==> Laid(clean)
  {
    hide BulletLaid, AnswerLaid, NoHeaderLine, IsBulletChar;
  }

  lemma BulletsFitAreLaid(lines: seq<string>)
    ensures BulletsFit(lines) ==> BulletsLaid(lines)
  {
    hide BulletLaid, IsBulletChar;
  }

  /** Splitting the rendered text and parsing its sections gives every field back. */
  ghost predicate ReadsBack(clean: EnforcedAnswer, allowed: set<string>, ord: Order) {
    var text := Rendered(clean);
    && SectionText(text, Answer) == clean.answer
    && KeptBullets(SectionText(text, LegalBasis), allowed, ord, true) == clean.legalBasis
    && KeptBullets(SectionText(text, PrivateMaterial), allowed, ord, true) == clean.privateMaterial
    && KeptBullets(SectionText(text, Conflicts), allowed, ord, false) == clean.conflicts
    && ParseConfidence(SectionText(text, Confidence)) == Some(clean.confidence)
    && ParseInsufficient(SectionText(text, Insufficient)) == clean.insufficient
  }

  // ---------------------------------------------------------------------------
  // The rendered text, line by line
  // ---------------------------------------------------------------------------

  function BlockLines(title: string, lines: seq<string>): seq<string> {
    if lines == [] then [] else ["", title] + Bullets(lines)
  }

  function LastLines(clean: EnforcedAnswer): seq<string> {
    ["", "Confidence: " + Shout(clean.confidence), "Insufficient evidence: " + YesNo(clean.insufficient)]
  }

  function RenderedLines(clean: EnforcedAnswer): seq<string> {
    (["Answer:"] + SplitLines(clean.answer))
    + (BlockLines("Legal basis:", clean.legalBasis)
       + (BlockLines("Supporting private material:", clean.privateMaterial)
          + (BlockLines("Conflicts:", clean.conflicts) + LastLines(clean))))
  }

  lemma {:induction false} JoinConcat(sep: string, a: seq<string>, b: seq<string>)
    requires a != [] && b != []
    ensures Join(sep, a + b) == Join(sep, a) + sep + Join(sep, b)
  {
    if |a| == 1 {
      assert (a + b)[1..] == b;
    } else {
      assert (a + b)[1..] == a[1..] + b;
      JoinConcat(sep, a[1..], b);
      assert a[0] + sep + (Join(sep, a[1..]) + sep + Join(sep, b)) == (a[0] + sep + Join(sep, a[1..])) + sep
             + Join(sep, b);
    }
  }

  /** Lists that join to the same text may stand for each other in a longer list. */
  lemma JoinCongruence(sep: string, a: seq<string>, a': seq<string>, b: seq<string>, b': seq<string>)
    requires (a == [] <==> a' == []) && (b == [] <==> b' == [])
    requires Join(sep, a) == Join(sep, a') && Join(sep, b) == Join(sep, b')
    ensures Join(sep, a + b) == Join(sep, a' + b')
    ensures a + b == [] <==> a' + b' == []
  {
    hide Join;
    if a == [] {
      assert a + b == b && a' + b' == b';
    } else if b == [] {
      assert a + b == a && a' + b' == a';
    } else {
      JoinConcat(sep, a, b);
      JoinConcat(sep, a', b');
    }
  }

  lemma JoinTwo(x: string, y: string)
    ensures Join("\n", [x, y]) == x + "\n" + y
  {
    assert [x, y][1..] == [y];
  }

  lemma BlockJoins(title: string, lines: seq<string>)
    ensures Join("\n", Block(title, lines)) == Join("\n", BlockLines(title, lines))
  {
    if lines != [] {
      JoinTwo("", title);
      assert "" + "\n" + title == "\n" + title;
      assert Join("\n", ["\n" + title]) == "\n" + title;
      hide Join;
      JoinCongruence("\n", ["\n" + title], ["", title], Bullets(lines), Bullets(lines));
    }
  }

  lemma SplitStep(s: string)
    requires s != [] && NewlinesOnly(s)
    ensures var n := LineEnd(s);
            SplitLines(s) == if n == |s| then [s] else [s[..n]] + SplitLines(s[n + 1..])
    ensures LineEnd(s) < |s| ==> s[LineEnd(s)] == '\n'
    ensures OneLine(s[..LineEnd(s)])
  {
    hide IsBreak;
  }

  lemma RestOfLines(s: string, n: nat)
    requires NewlinesOnly(s) && n < |s| && s[n] == '\n'
    ensures s == s[..n] + "\n" + s[n + 1..] && NewlinesOnly(s[n + 1..])
  {
    hide IsBreak;
    var rest := s[n + 1..];
    forall i | 0 <= i < |rest| && IsBreak(rest[i]) ensures rest[i] == '\n' {
      assert rest[i] == s[n + 1 + i];
    }
  }

  lemma JoinCons(x: string, rest: seq<string>)
    requires rest != []
    ensures Join("\n", [x] + rest) == x + "\n" + Join("\n", rest)
  {
    assert ([x] + rest)[1..] == rest;
  }

  /** A text broken by newlines only is its lines, joined. */
  lemma {:induction false} LinesRejoin(s: string)
    requires s != [] && !IsBreak(s[|s| - 1]) && NewlinesOnly(s)
    ensures Join("\n", SplitLines(s)) == s
    ensures SplitLines(s) != [] && SplitLines(s)[|SplitLines(s)| - 1] != []
    ensures forall l | l in SplitLines(s) :: OneLine(l)
    decreases |s|
  {
    hide IsBreak, SplitLines, NewlinesOnly, OneLine, Join;
    SplitStep(s);
    var n := LineEnd(s);
    if n < |s| {
      var rest := s[n + 1..];
      RestOfLines(s, n);
      LastOfRest(s, n);
      LinesRejoin(rest);
      JoinCons(s[..n], SplitLines(rest));
      ConsKeepsLast(s[..n], SplitLines(rest));
    } else {
      assert s[..n] == s;
      JustOne(s);
    }
  }

  lemma ConsKeepsLast(x: string, rest: seq<string>)
    requires rest != []
    ensures var all := [x] + rest;
            && all != [] && all[|all| - 1] == rest[|rest| - 1]
            && forall l :: l in all <==> l == x || l in rest
  {
  }

  lemma JustOne(s: string)
    ensures Join("\n", [s]) == s
  {
  }

  lemma LastOfRest(s: string, n: nat)
    requires n < |s| && IsBreak(s[n]) && !IsBreak(s[|s| - 1])
    ensures n + 1 < |s| && s[n + 1..][|s[n + 1..]| - 1] == s[|s| - 1]
  {
    hide IsBreak;
  }

  lemma SpacelessEndIsNoBreak(s: string)
    requires s != [] && IsStripped(s)
    ensures !IsBreak(s[|s| - 1]) && !IsBreak(s[0])
  {
    BreaksAreSpaces(s[|s| - 1]);
    BreaksAreSpaces(s[0]);
  }

  lemma RenderedIsLines(clean: EnforcedAnswer)
    requires AnswerLaid(clean.answer)
    ensures Rendered(clean) == Join("\n", RenderedLines(clean))
  {
    SpacelessEndIsNoBreak(clean.answer);
    LinesRejoin(clean.answer);
    hide Join, Block, BlockLines, Shout, YesNo, SplitLines, IsBreak, OneLine, LastLines, NO_ANSWER, IsStripped,
      NewlinesOnly;
    var l, p, c := Block("Legal basis:", clean.legalBasis),
      Block("Supporting private material:", clean.privateMaterial), Block("Conflicts:", clean.conflicts);
    var tail := ["\nConfidence: " + Shout(clean.confidence), "Insufficient evidence: " + YesNo(clean.insufficient)];
    assert RenderParts(clean) == ["Answer:", clean.answer] + (l + (p + (c + tail)));
    BlocksJoin(clean);
    TailJoins(clean);
    AnswerJoins(clean.answer);
    PartsJoin(["Answer:", clean.answer], ["Answer:"] + SplitLines(clean.answer),
              l, BlockLines("Legal basis:", clean.legalBasis),
              p, BlockLines("Supporting private material:", clean.privateMaterial),
              c, BlockLines("Conflicts:", clean.conflicts), tail, LastLines(clean));
  }

  lemma PartsJoin(a: seq<string>, a': seq<string>, l: seq<string>, l': seq<string>, p: seq<string>, p': seq<string>,
                  c: seq<string>, c': seq<string>, t: seq<string>, t': seq<string>)
    requires (a == [] <==> a' == []) && (l == [] <==> l' == []) && (p == [] <==> p' == []) && (c == [] <==> c' == [])
    requires t == [] <==> t' == []
    requires Join("\n", a) == Join("\n", a') && Join("\n", l) == Join("\n", l') && Join("\n", p) == Join("\n", p')
    requires Join("\n", c) == Join("\n", c') && Join("\n", t) == Join("\n", t')
    ensures Join("\n", a + (l + (p + (c + t)))) == Join("\n", a' + (l' + (p' + (c' + t'))))
  {
    hide Join;
    var ct, ct' := c + t, c' + t';
    JoinCongruence("\n", c, c', t, t');
    var pct, pct' := p + ct, p' + ct';
    JoinCongruence("\n", p, p', ct, ct');
    JoinCongruence("\n", l, l', pct, pct');
    JoinCongruence("\n", a, a', l + pct, l' + pct');
  }

  lemma BlocksJoin(clean: EnforcedAnswer)
    ensures Join("\n", Block("Legal basis:", clean.legalBasis)) ==
            Join("\n", BlockLines("Legal basis:", clean.legalBasis))
    ensures Join("\n", Block("Supporting private material:", clean.privateMaterial)) ==
            Join("\n", BlockLines("Supporting private material:", clean.privateMaterial))
    ensures Join("\n", Block("Conflicts:", clean.conflicts)) == Join("\n", BlockLines("Conflicts:", clean.conflicts))
    ensures Block("Legal basis:", clean.legalBasis) == [] <==> BlockLines("Legal basis:", clean.legalBasis) == []
    ensures Block("Supporting private material:", clean.privateMaterial) == [] <==>
            BlockLines("Supporting private material:", clean.privateMaterial) == []
    ensures Block("Conflicts:", clean.conflicts) == [] <==> BlockLines("Conflicts:", clean.conflicts) == []
  {
    hide Join;
    BlockJoins("Legal basis:", clean.legalBasis);
    BlockJoins("Supporting private material:", clean.privateMaterial);
    BlockJoins("Conflicts:", clean.conflicts);
  }

  lemma TailJoins(clean: EnforcedAnswer)
    ensures Join("\n", ["\nConfidence: " + Shout(clean.confidence),
            "Insufficient evidence: " + YesNo(clean.insufficient)]) ==
            Join("\n", LastLines(clean))
  {
    hide Shout, YesNo;
    var conf, suff := "Confidence: " + Shout(clean.confidence), "Insufficient evidence: " + YesNo(clean.insufficient);
    JoinTwo("\nConfidence: " + Shout(clean.confidence), suff);
    JoinTwo(conf, suff);
    assert LastLines(clean)[1..] == [conf, suff];
    assert "\nConfidence: " + Shout(clean.confidence) + "\n" + suff == "" + "\n" + (conf + "\n" + suff);
  }

  lemma AnswerJoins(answer: string)
    requires answer != [] && SplitLines(answer) != [] && Join("\n", SplitLines(answer)) == answer
    ensures Join("\n", ["Answer:", answer]) == Join("\n", ["Answer:"] + SplitLines(answer))
  {
    JoinTwo("Answer:", answer);
    assert (["Answer:"] + SplitLines(answer))[1..] == SplitLines(answer);
  }

  // ---------------------------------------------------------------------------
  // Splitting the rendered text into lines
  // ---------------------------------------------------------------------------

  ghost predicate AllOneLine(lines: seq<string>) {
    forall l | l in lines :: OneLine(l)
  }

  lemma AllOneLineConcat(a: seq<string>, b: seq<string>)
    requires AllOneLine(a) && AllOneLine(b)
    ensures AllOneLine(a + b)
  {
    hide OneLine;
  }

  lemma OneLineConcat(a: string, b: string)
    requires OneLine(a) && OneLine(b)
    ensures OneLine(a + b)
  {
    hide IsBreak;
  }

  lemma {:induction false} BulletsOneLine(lines: seq<string>)
    requires BulletsLaid(lines)
    ensures AllOneLine(Bullets(lines))
  {
    hide IsBreak, OneLine, IsStripped;
    if lines != [] {
      assert lines[0] in lines && forall l | l in lines[1..] :: l in lines;
      assert BulletLaid(lines[0]);
      ConstantsOneLine();
      OneLineConcat("- ", lines[0]);
      BulletsOneLine(lines[1..]);
      AllOneLineConcat(["- " + lines[0]], Bullets(lines[1..]));
    }
  }

  lemma ConstantsOneLine()
    ensures OneLine("- ") && OneLine("") && OneLine("Answer:") && OneLine("Legal basis:") && OneLine("Conflicts:")
  {
  }

  lemma PrivateOneLine()
    ensures OneLine("Supporting private material:")
  {
  }

  lemma LastOneLine(clean: EnforcedAnswer)
    ensures AllOneLine(LastLines(clean))
  {
    assert OneLine("Confidence: ") && OneLine(Shout(clean.confidence));
    assert OneLine("Insufficient evidence: ") && OneLine(YesNo(clean.insufficient));
    hide IsBreak, OneLine, Shout, YesNo;
    ConstantsOneLine();
    OneLineConcat("Confidence: ", Shout(clean.confidence));
    OneLineConcat("Insufficient evidence: ", YesNo(clean.insufficient));
  }

  lemma BlockOneLine(title: string, lines: seq<string>)
    requires OneLine(title) && BulletsLaid(lines)
    ensures AllOneLine(BlockLines(title, lines))
  {
    hide OneLine, BulletsLaid, Bullets;
    ConstantsOneLine();
    BulletsOneLine(lines);
    AllOneLineConcat(["", title], Bullets(lines));
  }

  lemma RenderedSplits(clean: EnforcedAnswer)
    requires Laid(clean)
    ensures SplitLines(Rendered(clean)) == RenderedLines(clean)
  {
    SpacelessEndIsNoBreak(clean.answer);
    LinesRejoin(clean.answer);
    hide OneLine, BulletsLaid, IsStripped, NewlinesOnly, BlockLines, SplitLines, IsBreak, Join, Rendered;
    RenderedIsLines(clean);
    ConstantsOneLine();
    PrivateOneLine();
    LastOneLine(clean);
    BlockOneLine("Legal basis:", clean.legalBasis);
    BlockOneLine("Supporting private material:", clean.privateMaterial);
    BlockOneLine("Conflicts:", clean.conflicts);
    var l, p, c := BlockLines("Legal basis:", clean.legalBasis),
      BlockLines("Supporting private material:", clean.privateMaterial), BlockLines("Conflicts:", clean.conflicts);
    AllOneLineConcat(["Answer:"], SplitLines(clean.answer));
    AllOneLineConcat(c, LastLines(clean));
    AllOneLineConcat(p, c + LastLines(clean));
    AllOneLineConcat(l, p + (c + LastLines(clean)));
    AllOneLineConcat(["Answer:"] + SplitLines(clean.answer), l + (p + (c + LastLines(clean))));
    EndsInLast(["Answer:"] + SplitLines(clean.answer), l + (p + (c + LastLines(clean))));
    EndsInLast(l, p + (c + LastLines(clean)));
    EndsInLast(p, c + LastLines(clean));
    EndsInLast(c, LastLines(clean));
    assert LastLines(clean)[2] != [] && |LastLines(clean)| == 3 by { LastLineIsThere(clean); }
    SplitJoined(RenderedLines(clean));
  }

  lemma EndsInLast(a: seq<string>, b: seq<string>)
    requires b != []
    ensures a + b != [] && (a + b)[|a + b| - 1] == b[|b| - 1]
  {
  }

  lemma LastLineIsThere(clean: EnforcedAnswer)
    ensures |LastLines(clean)| == 3 && LastLines(clean)[2] != []
  {
  }

  // ---------------------------------------------------------------------------
  // Which section each line goes to
  // ---------------------------------------------------------------------------

  lemma StripKeepsFirst(c: char, s: string)
    requires !IsSpace(c)
    ensures Strip([c] + s) != [] && Strip([c] + s)[0] == c
  {
    hide IsSpace;
    var x := [c] + s;
    assert LStrip(x) == x;
    var b := RStripCuts(x);
    assert x == RStrip(x) + b;
  }

  /** A header begins with a letter. */
  lemma HeaderFirst(line: string)
    ensures HeaderOf(line).Some? ==> Strip(line) != [] && 'a' <= Lower(Strip(line)[0]) <= 'z'
  {
    hide Strip;
    forall k: Section ensures Header(k) != [] && 'a' <= Header(k)[0] <= 'z' {}
  }

  lemma BulletIsNoHeader(s: string)
    ensures HeaderOf("- " + s) == None
  {
    assert !IsSpace('-');
    assert "- " + s == ['-'] + (" " + s);
    StripKeepsFirst('-', " " + s);
    HeaderFirst("- " + s);
  }

  lemma BlankIsNoHeader()
    ensures HeaderOf("") == None
  {
    HeaderFirst("");
  }

  lemma {:induction false} PlainLines(lines: seq<string>, current: Section, k: Section)
    requires forall l | l in lines :: HeaderOf(l).None?
    ensures Current(lines, current) == current
    ensures Bucket(lines, current, k) == if k == current then lines else []
    decreases |lines|
  {
    hide HeaderOf;
    if lines != [] {
      assert lines[0] in lines && forall l | l in lines[1..] :: l in lines;
      PlainLines(lines[1..], current, k);
    }
  }

  lemma {:induction false} BulletsAreNoHeaders(lines: seq<string>)
    ensures forall l | l in Bullets(lines) :: HeaderOf(l).None?
  {
    hide HeaderOf;
    if lines != [] {
      BulletIsNoHeader(lines[0]);
      BulletsAreNoHeaders(lines[1..]);
    }
  }

  lemma TitleAnswer()
    ensures HeaderOf("Answer:") == Some(Answer) && Remainder("Answer:", Answer) == []
  {
    StripKeepsStripped("Answer:");
    assert "Answer:"[7..] == [];
  }

  lemma TitleLegal()
    ensures HeaderOf("Legal basis:") == Some(LegalBasis) && Remainder("Legal basis:", LegalBasis) == []
  {
    var t := "Legal basis:";
    StripKeepsStripped(t);
    assert t[0] == 'L' && |t| == 12;
    LegalFolds();
    assert !StartsFolded(t, Header(Answer)) by { assert Header(Answer)[0] == 'a'; }
    assert t[12..] == [];
    hide StartsFolded, Header;
    assert |Header(LegalBasis)| == 12 by { LegalFolds(); }
  }

  lemma LegalFolds()
    ensures StartsFolded("Legal basis:", Header(LegalBasis)) && |Header(LegalBasis)| == 12
  {
  }

  lemma FoldsTogether(s: string, h: string, s': string, h': string)
    requires |s| == |h| && StartsFolded(s, h) && StartsFolded(s', h')
    ensures StartsFolded(s + s', h + h')
  {
    hide Lower;
    forall i | 0 <= i < |h + h'| ensures Lower((s + s')[i]) == (h + h')[i] {
      if i >= |h| { assert (s + s')[i] == s'[i - |h|] && (h + h')[i] == h'[i - |h|]; }
    }
  }

  lemma PrivateFolds()
    ensures "Supporting private material:" == "Supporting" + (" private" + " material:")
    ensures StartsFolded("Supporting" + (" private" + " material:"), Header(PrivateMaterial))
  {
    assert Header(PrivateMaterial) == "supporting" + (" private" + " material:");
    assert StartsFolded("Supporting", "supporting");
    assert StartsFolded(" private", " private") && StartsFolded(" material:", " material:");
    hide StartsFolded, Header;
    FoldsTogether(" private", " private", " material:", " material:");
    FoldsTogether("Supporting", "supporting", " private" + " material:", " private" + " material:");
  }

  lemma TitlePrivate()
    ensures HeaderOf("Supporting private material:") == Some(PrivateMaterial)
    ensures Remainder("Supporting private material:", PrivateMaterial) == []
  {
    var t := "Supporting private material:";
    StripKeepsStripped(t);
    PrivateFolds();
    assert !StartsFolded(t, Header(Answer)) && !StartsFolded(t, Header(LegalBasis)) by {
      assert t[0] == 'S' && Header(Answer)[0] == 'a' && Header(LegalBasis)[0] == 'l';
    }
    assert |t| == 28 == |Header(PrivateMaterial)| && t[28..] == [];
    hide StartsFolded, Header, Strip;
    assert Strip(t) == t;
    StripEmpty();
  }

  lemma StripEmpty()
    ensures Strip([]) == []
  {
  }

  lemma TitleConflicts()
    ensures HeaderOf("Conflicts:") == Some(Conflicts) && Remainder("Conflicts:", Conflicts) == []
  {
    StripKeepsStripped("Conflicts:");
    assert "Conflicts:"[10..] == [];
  }

  lemma LineConfidence(l: Level)
    ensures HeaderOf("Confidence: " + Shout(l)) == Some(Confidence)
    ensures Remainder("Confidence: " + Shout(l), Confidence) == Shout(l)
  {
    var line := "Confidence: " + Shout(l);
    ShoutIsStripped(l);
    assert line[11..] == " " + Shout(l);
    ConfidenceFolds(line);
    hide StartsFolded, Header, Strip, Shout;
  }

  lemma ShoutIsStripped(l: Level)
    ensures Strip("Confidence: " + Shout(l)) == "Confidence: " + Shout(l) && Strip(" " + Shout(l)) == Shout(l)
  {
    StripKeepsStripped("Confidence: " + Shout(l));
    assert AllSpaces(" ") && AllSpaces("");
    assert " " + Shout(l) + "" == " " + Shout(l);
    StripDropsSpaces(" ", Shout(l), "");
  }

  lemma ConfidenceFolds(line: string)
    requires "Confidence:" <= line
    ensures StartsFolded(line, Header(Confidence)) && |Header(Confidence)| == 11
    ensures forall f | f != Confidence :: !StartsFolded(line, Header(f))
  {
    assert line[0] == 'C' && line[4] == 'i';
    assert forall f | f != Confidence :: Header(f)[0] != 'c' || Header(f)[4] == 'l';
    assert StartsFolded("Confidence:", "confidence:");
    FoldsPrefix(line, "Confidence:", "confidence:");
  }

  lemma FoldsPrefix(s: string, p: string, h: string)
    requires |p| == |h| && StartsFolded(p, h) && p <= s
    ensures StartsFolded(s, h)
  {
    hide Lower;
    assert forall i | 0 <= i < |h| :: s[i] == p[i];
  }

  lemma InsufficientFolds()
    ensures "Insufficient evidence:" == "Insufficient" + " evidence:"
    ensures StartsFolded("Insufficient evidence:", Header(Insufficient))
  {
    assert Header(Insufficient) == "insufficient" + " evidence:";
    assert StartsFolded("Insufficient", "insufficient") && StartsFolded(" evidence:", " evidence:");
    FoldsTogether("Insufficient", "insufficient", " evidence:", " evidence:");
  }

  lemma LineInsufficient(b: bool)
    ensures HeaderOf("Insufficient evidence: " + YesNo(b)) == Some(Insufficient)
    ensures Remainder("Insufficient evidence: " + YesNo(b), Insufficient) == YesNo(b)
  {
    var line := "Insufficient evidence: " + YesNo(b);
    InsufficientFolds();
    hide StartsFolded;
    StripKeepsStripped(line);
    assert |Header(Insufficient)| == 22;
    FoldsPrefix(line, "Insufficient evidence:", Header(Insufficient));
    HeaderIsI(line);
    assert line[22..] == " " + YesNo(b);
    assert AllSpaces(" ") && AllSpaces("");
    assert " " + YesNo(b) + "" == " " + YesNo(b);
    StripDropsSpaces(" ", YesNo(b), "");
  }

  lemma HeaderIsI(line: string)
    requires line != [] && line[0] == 'I' && Strip(line) == line && StartsFolded(line, Header(Insufficient))
    ensures HeaderOf(line) == Some(Insufficient)
  {
    assert forall k: Section | k != Insufficient :: Header(k) != [] && Header(k)[0] != 'i';
  }

  lemma EmptyBucket(current: Section, k: Section)
    ensures Bucket([], current, k) == [] && Current([], current) == current
  {
  }

  lemma PlainAdds(line: string, current: Section, k: Section)
    requires HeaderOf(line) == None
    ensures Bucket([line], current, k) == (if k == current then [line] else []) && Current([line], current) == current
  {
    hide HeaderOf;
    OneLineBucket(line, current, k);
  }

  lemma TitleAdds(line: string, own: Section, current: Section, k: Section)
    requires HeaderOf(line) == Some(own)
    ensures Bucket([line], current, k) == (if k == own && Remainder(line, own) != [] then [Remainder(line, own)]
            else [])
    ensures Current([line], current) == own
  {
    hide HeaderOf, Remainder;
    OneLineBucket(line, current, k);
  }

  /** What a block of lines does: the blank goes to the section before it, the bullets to its own. */
  lemma BlockBucket(title: string, lines: seq<string>, own: Section, current: Section, k: Section)
    requires HeaderOf(title) == Some(own) && Remainder(title, own) == []
    ensures Bucket(BlockLines(title, lines), current, k) ==
            BlockPart(Bullets(lines), own, current, k)
    ensures Current(BlockLines(title, lines), current) == if lines == [] then current else own
  {
    hide HeaderOf, Remainder, Bucket, Current, Bullets;
    BulletsEmpty(lines);
    if lines == [] {
      EmptyBucket(current, k);
    } else {
      BlankIsNoHeader();
      BulletsAreNoHeaders(lines);
      PlainLines(Bullets(lines), own, k);
      BucketConcat([""], [title] + Bullets(lines), current, k);
      BucketConcat([title], Bullets(lines), current, k);
      PlainAdds("", current, k);
      TitleAdds(title, own, current, k);
      assert ["", title] + Bullets(lines) == [""] + ([title] + Bullets(lines));
    }
  }

  lemma LastBucket(clean: EnforcedAnswer, current: Section, k: Section)
    ensures Bucket(LastLines(clean), current, k) ==
            (if k == current then [""] else [])
            + ((if k == Confidence then [Shout(clean.confidence)] else [])
               + (if k == Insufficient then [YesNo(clean.insufficient)] else []))
  {
    hide HeaderOf, Remainder, Bucket, Current, Shout, YesNo;
    BlankIsNoHeader();
    LineConfidence(clean.confidence);
    LineInsufficient(clean.insufficient);
    ShoutsAreWords(clean);
    var conf, suff := "Confidence: " + Shout(clean.confidence), "Insufficient evidence: " + YesNo(clean.insufficient);
    BucketConcat([""], [conf] + [suff], current, k);
    BucketConcat([conf], [suff], current, k);
    PlainAdds("", current, k);
    TitleAdds(conf, Confidence, current, k);
    TitleAdds(suff, Insufficient, Confidence, k);
    assert LastLines(clean) == [""] + ([conf] + [suff]);
  }

  lemma ShoutsAreWords(clean: EnforcedAnswer)
    ensures Shout(clean.confidence) != [] && YesNo(clean.insufficient) != []
  {
  }

  /** Some section is always followed by the blank line that opens the next block. */
  function Closed(lines: seq<string>): seq<string> {
    if lines == [] then [] else lines + [""]
  }

  lemma AnswerBucket(answer: string, k: Section)
    requires NoHeaderLine(answer)
    ensures Bucket(["Answer:"] + SplitLines(answer), Answer, k) == if k == Answer then SplitLines(answer) else []
    ensures Current(["Answer:"] + SplitLines(answer), Answer) == Answer
  {
    TitleAnswer();
    hide HeaderOf, Remainder, SplitLines;
    PlainLines(SplitLines(answer), Answer, k);
    hide Bucket, Current;
    BucketConcat(["Answer:"], SplitLines(answer), Answer, k);
    OneLineBucket("Answer:", Answer, k);
  }

  /** The bucket of every section of a rendered answer. */
  lemma RenderedBuckets(clean: EnforcedAnswer, k: Section)
    requires NoHeaderLine(clean.answer)
    ensures Bucket(RenderedLines(clean), Answer, k) ==
            match k
            case Answer => SplitLines(clean.answer) + [""]
            case LegalBasis => Closed(Bullets(clean.legalBasis))
            case PrivateMaterial => Closed(Bullets(clean.privateMaterial))
            case Conflicts => Closed(Bullets(clean.conflicts))
            case Confidence => [Shout(clean.confidence)]
            case Insufficient => [YesNo(clean.insufficient)]
  {
    TitleLegal();
    TitlePrivate();
    TitleConflicts();
    hide HeaderOf, Remainder, Bucket, Current, SplitLines, BlockLines, LastLines, NoHeaderLine, Shout, YesNo;
    var l, p, c := BlockLines("Legal basis:", clean.legalBasis),
      BlockLines("Supporting private material:", clean.privateMaterial), BlockLines("Conflicts:", clean.conflicts);
    var head, last := ["Answer:"] + SplitLines(clean.answer), LastLines(clean);
    AnswerBucket(clean.answer, k);
    var k1 := if clean.legalBasis == [] then Answer else LegalBasis;
    var k2 := if clean.privateMaterial == [] then k1 else PrivateMaterial;
    var k3 := if clean.conflicts == [] then k2 else Conflicts;
    BlockBucket("Legal basis:", clean.legalBasis, LegalBasis, Answer, k);
    BlockBucket("Supporting private material:", clean.privateMaterial, PrivateMaterial, k1, k);
    BlockBucket("Conflicts:", clean.conflicts, Conflicts, k2, k);
    LastBucket(clean, k3, k);
    BucketConcat(c, last, k2, k);
    BucketConcat(p, c + last, k1, k);
    BucketConcat(l, p + (c + last), Answer, k);
    BucketConcat(head, l + (p + (c + last)), Answer, k);
    BulletsEmpty(clean.legalBasis);
    BulletsEmpty(clean.privateMaterial);
    BulletsEmpty(clean.conflicts);
    hide Bullets, Closed;
    Together(Bullets(clean.legalBasis), Bullets(clean.privateMaterial), Bullets(clean.conflicts),
             SplitLines(clean.answer), Shout(clean.confidence), YesNo(clean.insufficient), k);
  }

  function BlockPart(bullets: seq<string>, own: Section, current: Section, k: Section): seq<string> {
    if bullets == [] then [] else (if k == current then [""] else []) + (if k == own then bullets else [])
  }

  lemma Together(bl: seq<string>, bp: seq<string>, bc: seq<string>, x: seq<string>, conf: string, suff: string,
                 k: Section)
    ensures var k1 := if bl == [] then Answer else LegalBasis;
            var k2 := if bp == [] then k1 else PrivateMaterial;
            var k3 := if bc == [] then k2 else Conflicts;
            (if k == Answer then x else [])
            + (BlockPart(bl, LegalBasis, Answer, k)
               + (BlockPart(bp, PrivateMaterial, k1, k)
                  + (BlockPart(bc, Conflicts, k2, k)
                     + ((if k == k3 then [""] else [])
                        + ((if k == Confidence then [conf] else []) + (if k == Insufficient then [suff] else [])))))) ==
            match k
            case Answer => x + [""]
            case LegalBasis => Closed(bl)
            case PrivateMaterial => Closed(bp)
            case Conflicts => Closed(bc)
            case Confidence => [conf]
            case Insufficient => [suff]
  {
    match k
    case Answer =>
      if bl == [] { if bp == [] { if bc == [] {} } }
    case LegalBasis =>
      if bl != [] { if bp == [] { if bc == [] {} } }
    case PrivateMaterial =>
      if bp != [] { if bc == [] {} }
    case Conflicts =>
    case Confidence =>
    case Insufficient =>
  }

  lemma BulletsEmpty(lines: seq<string>)
    ensures Bullets(lines) == [] <==> lines == []
  {
  }

  // ---------------------------------------------------------------------------
  // Reading the sections back
  // ---------------------------------------------------------------------------

  /** Joining with one more blank line and stripping gives the text without it. */
  lemma ClosedText(lines: seq<string>)
    requires lines != [] && IsStripped(Join("\n", lines)) && Join("\n", lines) != []
    ensures Strip(Join("\n", lines + [""])) == Join("\n", lines)
  {
    hide Join, Strip;
    JoinSnoc("\n", lines, "");
    NewlineBreaks();
    var j := Join("\n", lines);
    assert [] + j + "\n" == j + "\n" + "";
    assert AllSpaces("\n") && AllSpaces([]);
    StripDropsSpaces([], j, "\n");
  }

  lemma {:induction false} BulletsJoinStripped(lines: seq<string>)
    requires lines != [] && BulletsLaid(lines)
    ensures var j := Join("\n", Bullets(lines)); IsStripped(j) && j != []
    ensures forall b | b in Bullets(lines) :: b != [] && IsStripped(b) && OneLine(b)
  {
    hide IsSpace, IsBreak, IsStripped, OneLine, BulletLaid;
    assert lines[0] in lines && BulletLaid(lines[0]);
    var b := "- " + lines[0];
    BulletStripped(lines[0]);
    if |lines| == 1 {
      assert Bullets(lines) == [b] by { assert lines[1..] == []; }
    } else {
      assert forall l | l in lines[1..] :: l in lines;
      BulletsJoinStripped(lines[1..]);
      JoinCons(b, Bullets(lines[1..]));
      StrippedEnds(b, Join("\n", Bullets(lines[1..])));
    }
  }

  lemma BulletStripped(line: string)
    requires BulletLaid(line)
    ensures var b := "- " + line; b != [] && IsStripped(b) && OneLine(b)
  {
    hide IsSpace, IsBreak;
    DashIsNoSpace();
    ConstantsOneLine();
    OneLineConcat("- ", line);
  }

  lemma StrippedEnds(a: string, b: string)
    requires a != [] && b != [] && IsStripped(a) && IsStripped(b)
    ensures IsStripped(a + "\n" + b) && a + "\n" + b != []
  {
    hide IsSpace;
  }

  lemma DashIsNoSpace()
    ensures !IsSpace('-')
  {
  }

  /** The bullets of a block are found again as the lines of its section. */
  lemma BulletLines(lines: seq<string>)
    requires BulletsLaid(lines)
    ensures Lines(Strip(Join("\n", Closed(Bullets(lines))))) == Bullets(lines)
  {
    BulletsEmpty(lines);
    hide Join, Strip, BulletsLaid, SplitLines;
    if lines == [] {
      NothingJoins();
    } else {
      BulletsJoinStripped(lines);
      ClosedText(Bullets(lines));
      hide Bullets;
      var bs := Bullets(lines);
      assert bs[|bs| - 1] in bs;
      SplitJoined(bs);
      AllLinesSurvive(bs);
    }
  }

  lemma NothingJoins()
    ensures Lines(Strip(Join("\n", []))) == []
  {
    assert SplitLines([]) == [];
    assert NonBlank([]) == [];
  }

  lemma AllLinesSurvive(bs: seq<string>)
    requires forall b | b in bs :: b != [] && IsStripped(b)
    ensures Survivors(NonBlank(bs)) == bs
  {
    hide Strip, IsStripped;
    var all := AllSome(bs);
    forall i | 0 <= i < |bs| ensures NonBlank(bs)[i] == all[i] {
      assert bs[i] in bs;
      StripKeepsStripped(bs[i]);
    }
    assert NonBlank(bs) == all;
    AllSurvive(bs);
  }

  lemma {:induction false} AllSurvive(bs: seq<string>)
    ensures Survivors(AllSome(bs)) == bs
  {
    var all := AllSome(bs);
    if bs != [] {
      var n := |bs| - 1;
      AllSurvive(bs[..n]);
      assert all[..n] == AllSome(bs[..n]);
      assert bs == bs[..n] + [bs[n]];
    }
  }

  lemma BulletUnwraps(s: string)
    requires BulletFit(s)
    ensures Strip(DropBullets("- " + s)) == s
  {
    hide Strip, IsStripped, OneLine;
    var raw := "- " + s;
    assert raw[0] == '-' && raw[1..] == " " + s && (" " + s)[1..] == s;
    assert DropBullets(s) == s;
    assert DropBullets(" " + s) == s;
    assert DropBullets(raw) == s;
    StripKeepsStripped(s);
  }

  lemma BulletKept(s: string, allowed: set<string>, ord: Order, require: bool)
    requires BulletFit(s) && LabelSet(s) <= allowed && (require ==> LabelSet(s) != {})
    ensures KeepBullet("- " + s, allowed, ord, require) == Some(s)
  {
    hide Strip, DropBullets, IsStripped, OneLine, IsBulletChar, LabelSet;
    BulletUnwraps(s);
  }

  lemma {:induction false} BulletsAt(lines: seq<string>)
    ensures |Bullets(lines)| == |lines|
    ensures forall i | 0 <= i < |lines| :: Bullets(lines)[i] == "- " + lines[i]
  {
    if lines != [] {
      BulletsAt(lines[1..]);
    }
  }

  function AllSome(lines: seq<string>): seq<Option<string>> {
    seq(|lines|, i requires 0 <= i < |lines| => Some(lines[i]))
  }

  lemma VerdictsRecovered(lines: seq<string>, allowed: set<string>, ord: Order, require: bool)
    requires BulletsFit(lines)
    requires forall s | s in lines :: LabelSet(s) <= allowed && (require ==> LabelSet(s) != {})
    ensures BulletVerdicts(Bullets(lines), allowed, ord, require) == AllSome(lines)
  {
    BulletsAt(lines);
    hide LabelSet, KeepBullet, BulletFit, Bullets;
    forall i | 0 <= i < |lines|
      ensures BulletVerdicts(Bullets(lines), allowed, ord, require)[i] == AllSome(lines)[i]
    {
      assert lines[i] in lines;
      BulletKept(lines[i], allowed, ord, require);
    }
  }

  /** The bullet parser recovers every bullet of a block. */
  lemma BulletsRecovered(lines: seq<string>, allowed: set<string>, ord: Order, require: bool)
    requires BulletsFit(lines)
    requires forall s | s in lines :: LabelSet(s) <= allowed && (require ==> LabelSet(s) != {})
    ensures KeptBullets(Strip(Join("\n", Closed(Bullets(lines)))), allowed, ord, require) == lines
  {
    hide Strip, Join, LabelSet, Lines, BulletVerdicts, BulletsFit, BulletsLaid, Bullets, Closed, AllSome, Survivors;
    BulletsFitAreLaid(lines);
    BulletLines(lines);
    VerdictsRecovered(lines, allowed, ord, require);
    AllSurvive(lines);
  }

  lemma AnswerRecovered(answer: string)
    requires AnswerLaid(answer)
    ensures Strip(Join("\n", SplitLines(answer) + [""])) == answer
  {
    SpacelessEndIsNoBreak(answer);
    LinesRejoin(answer);
    hide Join, SplitLines, Strip;
    ClosedText(SplitLines(answer));
  }

  lemma {:induction false} ShortTextHasNoKey(t: string, i: nat, key: string, words: seq<string>)
    requires i <= |t| < |key|
    ensures Search(t, i, key, words) == None
    decreases |t| - i
  {
    if i < |t| { ShortTextHasNoKey(t, i + 1, key, words); }
  }

  lemma LevelRecovered(l: Level)
    ensures ParseConfidence(Strip(Join("\n", [Shout(l)]))) == Some(l)
  {
    var t := Shout(l);
    assert Join("\n", [t]) == t;
    StripKeepsStripped(t);
    ShortTextHasNoKey(t, 0, Header(Confidence), ["high", "medium", "low"]);
    hide Search, Header;
    assert t == "LOW" ==> FoldsAt(t, 0, "low");
    assert t == "MEDIUM" ==> FoldsAt(t, 0, "medium");
    assert t == "HIGH" ==> FoldsAt(t, 0, "high");
  }

  lemma SufficiencyRecovered(b: bool)
    ensures ParseInsufficient(Strip(Join("\n", [YesNo(b)]))) == b
  {
    var t := YesNo(b);
    assert Join("\n", [t]) == t;
    StripKeepsStripped(t);
    ShortTextHasNoKey(t, 0, Header(Insufficient), ["yes", "no"]);
    hide Search, Header;
    assert t == "YES" ==> FoldsAt(t, 0, "yes");
    assert !FoldsAt("NO", 0, "yes") && !FoldsAt("NO", 1, "yes") && !FoldsAt("NO", 2, "yes");
    assert t == "NO" ==> !FoldsSomewhere(t, 2, "yes");
    assert t == "NO" ==> !FoldsSomewhere(t, 1, "yes");
  }

  ghost predicate AllCite(lines: seq<string>, allowed: set<string>) {
    forall s | s in lines :: LabelSet(s) <= allowed && LabelSet(s) != {}
  }

  ghost predicate NothingForeign(lines: seq<string>, allowed: set<string>) {
    forall s | s in lines :: LabelSet(s) <= allowed
  }

  /** Print, then parse: splitting a rendered answer and running the parsers recovers every field. */
  lemma PrintThenParse(clean: EnforcedAnswer, allowed: set<string>, ord: Order)
    requires Fit(clean)
    requires AllCite(clean.legalBasis, allowed) && AllCite(clean.privateMaterial, allowed)
    requires NothingForeign(clean.conflicts, allowed)
    ensures ReadsBack(clean, allowed, ord)
  {
    FitIsLaid(clean);
    hide Strip, Join, SplitLines, Bucket, AnswerLaid, NoHeaderLine, BulletFit, LabelSet, KeptBullets, ParseConfidence,
      ParseInsufficient, Rendered, RenderedLines, Closed, Bullets, Shout, YesNo, Laid;
    RenderedSplits(clean);
    RenderedBuckets(clean, Answer);
    RenderedBuckets(clean, LegalBasis);
    RenderedBuckets(clean, PrivateMaterial);
    RenderedBuckets(clean, Conflicts);
    RenderedBuckets(clean, Confidence);
    RenderedBuckets(clean, Insufficient);
    AnswerRecovered(clean.answer);
    BulletsRecovered(clean.legalBasis, allowed, ord, true);
    BulletsRecovered(clean.privateMaterial, allowed, ord, true);
    BulletsRecovered(clean.conflicts, allowed, ord, false);
    LevelRecovered(clean.confidence);
    SufficiencyRecovered(clean.insufficient);
  }
}
