/** Stretches of text said character by character, and the scanners that find them. */
module Spelling {
  import opened Text

  ghost predicate SpacesTo(t: string, i: nat, j: nat) {
    i <= j <= |t| && forall k | i <= k < j :: IsSpace(t[k])
  }

  /** All the white space there is. */
  ghost predicate AllSpacesTo(t: string, i: nat, j: nat) {
    SpacesTo(t, i, j) && (j == |t| || !IsSpace(t[j]))
  }

  ghost predicate DigitsTo(t: string, i: nat, j: nat) {
    i < j <= |t| && forall k | i <= k < j :: IsDigit(t[k])
  }

  /** The word, given in small letters, in whatever case. */
  ghost predicate Reads(t: string, i: nat, j: nat, w: string) {
    && i <= j <= |t| && j - i == |w|
    && forall k | 0 <= k < |w| :: t[i + k] == w[k] || ('A' <= t[i + k] <= 'Z' && t[i + k] as int + 32 == w[k] as int)
  }

  /** `[S`, one or more digits, `]`. */
  ghost predicate MarkerAt(t: string, i: nat, j: nat) {
    && i + 4 <= j <= |t| && t[i] == '[' && t[i + 1] == 'S' && t[j - 1] == ']'
    && forall k | i + 2 <= k < j - 1 :: IsDigit(t[k])
  }

  /** The text shows the marker somewhere, `m` being what stands inside its brackets. */
  ghost predicate Shows(t: string, m: string) {
    exists i: nat, j: nat :: MarkerAt(t, i, j) && m == t[i + 1..j - 1]
  }

  /** A letter, a digit or the underscore. */
  ghost predicate WordChar(c: char) {
    'a' <= c <= 'z' || 'A' <= c <= 'Z' || IsDigit(c) || c == '_'
  }

  lemma WordCharIs(c: char)
    ensures IsWord(c) <==> WordChar(c)
  {
  }

  /** What the character classes are in ASCII. */
  lemma AsciiClasses(c: char)
    requires c as int < 128
    ensures IsSpace(c) <==> c == ' ' || '\t' <= c <= '\r' || 28 <= c as int <= 31
    ensures IsBreak(c) <==> '\n' <= c <= '\r' || 28 <= c as int <= 30
    ensures IsDigit(c) <==> '0' <= c <= '9'
    ensures IsDigit(c) ==> DigitValue(c) == c as int - '0' as int
  {
  }

  lemma {:induction false} SkippedIs(t: string, i: nat, j: nat)
    requires i <= |t|
    ensures j == SkipSpaces(t, i) <==> AllSpacesTo(t, i, j)
    decreases |t| - i
  {
    hide IsSpace;
    if i < |t| && IsSpace(t[i]) { SkippedIs(t, i + 1, j); }
  }

  lemma {:induction false} DigitsAre(t: string, i: nat)
    requires i <= |t|
    ensures forall k | i <= k < DigitsEnd(t, i) :: IsDigit(t[k])
    ensures forall j: nat | DigitsTo(t, i, j) :: j <= DigitsEnd(t, i)
    decreases |t| - i
  {
    hide IsDigit;
    if i < |t| && IsDigit(t[i]) { DigitsAre(t, i + 1); }
    forall j: nat | DigitsTo(t, i, j) ensures j <= DigitsEnd(t, i) {
    }
  }

  lemma FoldedIs(t: string, i: nat, j: nat, w: string)
    requires forall k | 0 <= k < |w| :: !('A' <= w[k] <= 'Z')
    ensures Reads(t, i, j, w) <==> FoldsAt(t, i, w) && j == i + |w|
  {
  }

  /** The word stands somewhere in the text, in upper or lower case. */
  ghost predicate Mentions(t: string, w: string) {
    exists i: nat, j: nat :: Reads(t, i, j, w)
  }

  lemma {:induction false} FoldsMention(t: string, i: nat, w: string)
    requires i <= |t| && forall k | 0 <= k < |w| :: !('A' <= w[k] <= 'Z')
    ensures FoldsSomewhere(t, i, w) <==> exists j: nat, e: nat :: i <= j && Reads(t, j, e, w)
    decreases |t| - i
  {
    hide Lower;
    if i < |t| { FoldsMention(t, i + 1, w); }
    FoldedIs(t, i, i + |w|, w);
    hide Reads, FoldsAt;
    if j: nat, e: nat :| i <= j && Reads(t, j, e, w) {
      FoldedIs(t, j, e, w);
      if j == i { assert FoldsAt(t, i, w); } else { ReadsWithin(t, j, e, w); }
    }
  }

  lemma ReadsWithin(t: string, i: nat, j: nat, w: string)
    requires Reads(t, i, j, w)
    ensures i <= j <= |t|
  {
  }

  lemma MentionIsFound(t: string, w: string)
    requires forall k | 0 <= k < |w| :: !('A' <= w[k] <= 'Z')
    ensures FoldsSomewhere(t, 0, w) <==> Mentions(t, w)
  {
    hide Lower, FoldsSomewhere, Reads;
    FoldsMention(t, 0, w);
  }
}
