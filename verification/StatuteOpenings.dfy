/** The line patterns of a section written out in characters: with what a part opens, and at what one ends. */
module StatuteOpenings {
  import opened Wrappers
  import opened Text
  import opened Spelling
  import opened StatutePatterns

  ghost predicate AsciiLetter(c: char) {
    'a' <= c <= 'z' || 'A' <= c <= 'Z'
  }

  /** `(12A)` and a white-space character. */
  ghost predicate NumberTo(t: string, c: nat, e: nat) {
    exists j: nat, k: nat ::
      && c < |t| && t[c] == '(' && DigitsTo(t, c + 1, j)
      && (k == j || (j < |t| && AsciiLetter(t[j]) && k == j + 1))
      && k + 1 < |t| && t[k] == ')' && IsSpace(t[k + 1]) && e == k + 2
  }

  ghost predicate ThatTo(t: string, i: nat, e: nat) {
    Reads(t, i, e, "that") && (e == |t| || !WordChar(t[e]))
  }

  /** A word and at least one white-space character after it. */
  ghost predicate WordTo(t: string, i: nat, w: string, j: nat) {
    exists m: nat :: Reads(t, i, m, w) && m < j && AllSpacesTo(t, m, j)
  }

  /** `Provided that`, `Provided further that` or `Provided also that`. */
  ghost predicate ProvisoTo(t: string, c: nat, e: nat) {
    exists p: nat :: WordTo(t, c, "provided", p) &&
      (ThatTo(t, p, e) || exists q: nat :: (WordTo(t, p, "further", q) || WordTo(t, p, "also", q)) && ThatTo(t, q, e))
  }

  /** `Explanation.` or `Explanation 2.`, up to the full stop. */
  ghost predicate HeadingTo(t: string, c: nat, d: nat) {
    && d < |t| && t[d] == '.'
    && exists p: nat :: Reads(t, c, p, "explanation")
         && (d == p || exists s: nat :: p < s && SpacesTo(t, p, s) && DigitsTo(t, s, d))
  }

  /** The heading, white space after it, and one dash or colon if there is one. */
  ghost predicate ExplanationTo(t: string, c: nat, e: nat) {
    exists d: nat, x: nat :: HeadingTo(t, c, d) && AllSpacesTo(t, d + 1, x)
      && e == if x < |t| && t[x] in "\U{2014}-:" then x + 1 else x
  }

  /** `Illustration.` or `Illustrations.` */
  ghost predicate IllustrationTo(t: string, c: nat, e: nat) {
    exists p: nat, k: nat :: Reads(t, c, p, "illustration") && (k == p || (k == p + 1 <= |t| && t[p] in "sS"))
      && k < |t| && t[k] == '.' && e == k + 1
  }

  ghost predicate BeginsLine(t: string, i: nat) {
    i <= |t| && (i == 0 || t[i - 1] == '\n')
  }

  ghost predicate WordsTo(kind: Kind, t: string, c: nat, e: nat) {
    match kind
    case Subsection => NumberTo(t, c, e)
    case Proviso => ProvisoTo(t, c, e)
    case Explanation => ExplanationTo(t, c, e)
    case Illustration => IllustrationTo(t, c, e)
  }

  /** A part of the kind opens at `i`, with words that reach to `e`. */
  ghost predicate Opens(kind: Kind, t: string, i: nat, e: nat) {
    BeginsLine(t, i) && exists c: nat :: AllSpacesTo(t, i, c) && WordsTo(kind, t, c, e)
  }

  ghost predicate EndsWith(t: string, c: nat) {
    || (exists e: nat :: NumberTo(t, c, e))
    || (exists e: nat :: Reads(t, c, e, "provided") && (e == |t| || !WordChar(t[e])))
    || (exists d: nat :: HeadingTo(t, c, d))
    || (exists e: nat :: Reads(t, c, e, "illustration"))
  }

  /** Any part ends at `i`: it takes less for that than to open the next one. */
  ghost predicate Ends(t: string, i: nat) {
    BeginsLine(t, i) && exists c: nat :: AllSpacesTo(t, i, c) && EndsWith(t, c)
  }

  // ---------------------------------------------------------------------------
  // The patterns read exactly that
  // ---------------------------------------------------------------------------

  lemma NumberIs(t: string, c: nat, e: nat)
    requires c <= |t|
    ensures NumberEnd(t, c) == Some(e) <==> NumberTo(t, c, e)
  {
    hide IsSpace, IsDigit;
    if c < |t| && t[c] == '(' {
      DigitsAre(t, c + 1);
      DigitsAreNoLetters();
    }
  }

  lemma DigitsAreNoLetters()
    ensures forall ch | AsciiLetter(ch) || ch == ')' || ch == '.' :: !IsDigit(ch)
  {
  }

  lemma WordIs(t: string, i: nat, w: string, j: nat)
    requires forall k | 0 <= k < |w| :: 'a' <= w[k] <= 'z'
    ensures WordGap(t, i, w) == Some(j) <==> WordTo(t, i, w, j)
  {
    FoldedIs(t, i, i + |w|, w);
    hide IsSpace, FoldsAt;
    if FoldsAt(t, i, w) { SkippedIs(t, i + |w|, j); }
    hide AllSpacesTo;
    forall m: nat ensures Reads(t, i, m, w) <==> FoldsAt(t, i, w) && m == i + |w| {
      FoldedIs(t, i, m, w);
    }
  }

  lemma ThatIs(t: string, i: nat, e: nat)
    ensures ThatEnd(t, i) == Some(e) <==> ThatTo(t, i, e)
  {
    FoldedIs(t, i, e, "that");
    if i + 4 < |t| { WordCharIs(t[i + 4]); }
    hide FoldsAt, Reads, IsWord, WordChar;
  }

  /** The two words that may stand between begin with different letters from each other and from the third. */
  lemma OneMiddle(t: string, p: nat, q: nat, e: nat)
    ensures WordTo(t, p, "further", q) ==> !WordTo(t, p, "also", e) && !ThatTo(t, p, e)
    ensures WordTo(t, p, "also", q) ==> !ThatTo(t, p, e)
  {
    assert "further"[0] == 'f' && "also"[0] == 'a' && "that"[0] == 't';
    hide AllSpacesTo, WordChar;
  }

  lemma ProvisoIs(t: string, c: nat, e: nat)
    ensures ProvisoEnd(t, c) == Some(e) <==> ProvisoTo(t, c, e)
  {
    hide WordGap, ThatEnd, WordTo, ThatTo;
    forall p: nat ensures WordGap(t, c, "provided") == Some(p) <==> WordTo(t, c, "provided", p) {
      WordIs(t, c, "provided", p);
    }
    if WordGap(t, c, "provided").Some? {
      var p := WordGap(t, c, "provided").value;
      ThatIs(t, p, e);
      forall q: nat ensures WordGap(t, p, "further") == Some(q) <==> WordTo(t, p, "further", q)
        ensures WordGap(t, p, "also") == Some(q) <==> WordTo(t, p, "also", q)
        ensures ThatEnd(t, q) == Some(e) <==> ThatTo(t, q, e)
      {
        WordIs(t, p, "further", q);
        WordIs(t, p, "also", q);
        ThatIs(t, q, e);
      }
      forall q: nat, d: nat
        ensures WordTo(t, p, "further", q) ==> !WordTo(t, p, "also", d) && !ThatTo(t, p, d)
        ensures WordTo(t, p, "also", q) ==> !ThatTo(t, p, d)
      {
        OneMiddle(t, p, q, d);
      }
    }
  }

  lemma HeadingIs(t: string, c: nat, d: nat)
    ensures ExplanationDot(t, c) == Some(d) <==> HeadingTo(t, c, d)
  {
    hide IsSpace, IsDigit, FoldsAt, Reads;
    forall p: nat ensures Reads(t, c, p, "explanation") <==> FoldsAt(t, c, "explanation") && p == c + 11 {
      FoldedIs(t, c, p, "explanation");
    }
    DotIsNeither();
    if FoldsAt(t, c, "explanation") {
      FoldsFits(t, c, "explanation");
      assert Reads(t, c, c + 11, "explanation");
      var s := SkipSpaces(t, c + 11);
      SkippedIs(t, c + 11, s);
      DigitsAre(t, s);
      if d != c + 11 && HeadingTo(t, c, d) {
        var r: nat :| c + 11 < r && SpacesTo(t, c + 11, r) && DigitsTo(t, r, d);
        assert IsDigit(t[r]);
        SkippedIs(t, c + 11, r);
      }
    }
  }

  lemma DotIsNeither()
    ensures !IsDigit('.') && !IsSpace('.') && forall ch | IsDigit(ch) :: !IsSpace(ch)
  {
    forall ch | IsDigit(ch) ensures !IsSpace(ch) {
      DigitsAreNotSpaces(ch);
    }
  }

  lemma ExplanationIs(t: string, c: nat, e: nat)
    ensures ExplanationEnd(t, c) == Some(e) <==> ExplanationTo(t, c, e)
  {
    hide ExplanationDot, HeadingTo, AllSpacesTo;
    forall d: nat ensures ExplanationDot(t, c) == Some(d) <==> HeadingTo(t, c, d) {
      HeadingIs(t, c, d);
    }
    if ExplanationDot(t, c).Some? {
      var d := ExplanationDot(t, c).value;
      var after := d + 1;
      var skipped := SkipSpaces(t, after);
      forall x: nat ensures x == skipped <==> AllSpacesTo(t, after, x) {
        SkippedIs(t, after, x);
      }
      assert AllSpacesTo(t, after, skipped);
    }
  }

  lemma IllustrationIs(t: string, c: nat, e: nat)
    ensures IllustrationEnd(t, c) == Some(e) <==> IllustrationTo(t, c, e)
  {
    hide FoldsAt, Reads;
    forall p: nat ensures Reads(t, c, p, "illustration") <==> FoldsAt(t, c, "illustration") && p == c + 12 {
      FoldedIs(t, c, p, "illustration");
    }
  }

  /** Where a pattern has read its words is where a part opens and its words end, and nowhere else. */
  lemma OpeningsAre(kind: Kind, t: string, i: nat, e: nat)
    requires i <= |t|
    ensures MatchEnd(kind, t, i) == Some(e) <==> Opens(kind, t, i, e)
  {
    hide NumberEnd, ProvisoEnd, ExplanationEnd, IllustrationEnd, NumberTo, ProvisoTo, ExplanationTo, IllustrationTo,
      AllSpacesTo;
    var c := SkipSpaces(t, i);
    forall x: nat ensures x == c <==> AllSpacesTo(t, i, x) {
      SkippedIs(t, i, x);
    }
    assert AllSpacesTo(t, i, c);
    NumberIs(t, c, e);
    ProvisoIs(t, c, e);
    ExplanationIs(t, c, e);
    IllustrationIs(t, c, e);
  }

  /** And where the pattern of endings matches, a part ends. */
  lemma EndingsAre(t: string, i: nat)
    requires i <= |t|
    ensures BoundaryAt(t, i) <==> Ends(t, i)
  {
    hide NumberEnd, ExplanationDot, NumberTo, HeadingTo, AllSpacesTo, FoldsAt, Reads, IsWord, WordChar;
    var c := SkipSpaces(t, i);
    if FoldsAt(t, c, "provided") { FoldsFits(t, c, "provided"); }
    if c + 8 < |t| { WordCharIs(t[c + 8]); }
    forall x: nat ensures x == c <==> AllSpacesTo(t, i, x) {
      SkippedIs(t, i, x);
    }
    assert AllSpacesTo(t, i, c);
    forall e: nat
      ensures NumberEnd(t, c) == Some(e) <==> NumberTo(t, c, e)
      ensures ExplanationDot(t, c) == Some(e) <==> HeadingTo(t, c, e)
      ensures Reads(t, c, e, "provided") <==> FoldsAt(t, c, "provided") && e == c + 8
      ensures Reads(t, c, e, "illustration") <==> FoldsAt(t, c, "illustration") && e == c + 12
    {
      NumberIs(t, c, e);
      HeadingIs(t, c, e);
      FoldedIs(t, c, e, "provided");
      FoldedIs(t, c, e, "illustration");
    }
    assert FoldsAt(t, c, "provided") <==> Reads(t, c, c + 8, "provided");
    assert FoldsAt(t, c, "illustration") <==> Reads(t, c, c + 12, "illustration");
    assert EndsPart(t, c) <==> EndsWith(t, c);
  }
}
