/** What is left of a sentence or a bullet of a reply, told as text. */
module Cleaning {
  import opened Wrappers
  import opened Text
  import opened Spelling
  import opened Markers
  import opened Sections
  import opened Enforce

  /** The text shows exactly the labels the automaton reads off. */
  lemma LabelsAreShown(s: string, m: string)
    ensures m in LabelSet(s) <==> Shows(s, m)
  {
    MarkersAreOccurrences(s, m);
    MarkerPunctuation(']');
    hide IsDigit, MarkersOf;
    if IsLabel(m) && Contains(s, Bracket(m)) {
      var i: nat :| Occurs(s, i, Bracket(m));
      var j := i + |m| + 2;
      assert s[i..j] == Bracket(m);
      BracketIsMarker(s, i, j, m);
    }
    if Shows(s, m) {
      var i: nat, j: nat :| MarkerAt(s, i, j) && m == s[i + 1..j - 1];
      assert s[i..j] == Bracket(m);
      assert Occurs(s, i, Bracket(m));
      assert AllDigits(m[1..]);
    }
  }

  lemma BracketIsMarker(s: string, i: nat, j: nat, m: string)
    requires IsLabel(m) && i <= j <= |s| && s[i..j] == Bracket(m)
    ensures MarkerAt(s, i, j) && m == s[i + 1..j - 1]
  {
    hide IsDigit;
    var w := Bracket(m);
    assert forall k | 0 <= k < |w| :: s[i + k] == s[i..j][k];
    assert forall k | 0 <= k < |m| :: w[k + 1] == m[k];
    forall k | i + 2 <= k < j - 1 ensures IsDigit(s[k]) {
      assert s[k] == s[i + (k - i)] && m[1..][k - i - 2] == s[k];
      assert s[k] in m[1..];
    }
  }

  // ---------------------------------------------------------------------------
  // Deleting a marker
  // ---------------------------------------------------------------------------

  ghost predicate StandsAt(t: string, i: nat, w: string) {
    i + |w| <= |t| && forall k | 0 <= k < |w| :: t[i + k] == w[k]
  }

  /** The first place where `w` stands in `t` is `i`. */
  ghost predicate FirstAt(t: string, w: string, i: nat) {
    StandsAt(t, i, w) && forall j | 0 <= j < i :: !StandsAt(t, j, w)
  }

  ghost predicate Lacks(t: string, w: string) {
    forall j: nat :: !StandsAt(t, j, w)
  }

  /** `r` is `s` without `w`, each time it is met from left to right. */
  ghost predicate Deletes(s: string, r: string, w: string)
    decreases |s|
  {
    if Lacks(s, w) then r == s
    else exists i: nat :: w != [] && FirstAt(s, w, i) && DeletesAfter(s, i, r, w)
  }

  ghost predicate DeletesAfter(s: string, i: nat, r: string, w: string)
    decreases |s|, 0
  {
    w != [] && i + |w| <= |s| && s[..i] <= r && Deletes(s[i + |w|..], r[i..], w)
  }

  lemma StandsFirst(t: string, w: string)
    ensures w <= t <==> StandsAt(t, 0, w)
  {
    if StandsAt(t, 0, w) {
      forall k | 0 <= k < |w| ensures t[k] == w[k] { assert t[0 + k] == w[k]; }
    }
  }

  lemma StandsShifted(s: string, n: nat, j: nat, w: string)
    requires n <= |s|
    ensures StandsAt(s[n..], j, w) <==> StandsAt(s, n + j, w)
  {
    if StandsAt(s[n..], j, w) {
      forall k | 0 <= k < |w| ensures s[n + j + k] == w[k] { assert s[n..][j + k] == w[k]; }
    }
    if StandsAt(s, n + j, w) {
      forall k | 0 <= k < |w| ensures s[n..][j + k] == w[k] { assert s[n + j + k] == w[k]; }
    }
  }

  lemma {:induction false} RemoveDeletes(s: string, w: string)
    requires w != []
    ensures Deletes(s, Remove(s, w), w)
    decreases |s|
  {
    hide Lacks, FirstAt, Remove;
    if Lacks(s, w) {
      LackingIsKept(s, w);
    } else {
      var i := FirstPlace(s, w);
      RemoveAtFirst(s, w, i);
      RemoveDeletes(s[i + |w|..], w);
      assert Remove(s, w)[i..] == Remove(s[i + |w|..], w);
      assert DeletesAfter(s, i, Remove(s, w), w);
    }
  }

  lemma {:induction false} LackingIsKept(s: string, w: string)
    requires Lacks(s, w) && w != []
    ensures Remove(s, w) == s
  {
    if s != [] {
      StandsFirst(s, w);
      hide StandsAt;
      assert !StandsAt(s, 0, w);
      forall j: nat ensures !StandsAt(s[1..], j, w) {
        StandsShifted(s, 1, j, w);
      }
      LackingIsKept(s[1..], w);
    }
  }

  lemma FirstPlace(s: string, w: string) returns (i: nat)
    requires !Lacks(s, w)
    ensures FirstAt(s, w, i)
  {
    hide StandsAt;
    var last: nat :| StandsAt(s, last, w);
    i := 0;
    while !StandsAt(s, i, w)
      invariant i <= last
      invariant forall j | 0 <= j < i :: !StandsAt(s, j, w)
      decreases last - i
    {
      i := i + 1;
    }
  }

  lemma FirstLater(s: string, w: string, i: nat)
    requires w != [] && FirstAt(s, w, i) && i > 0
    ensures s != [] && !(w <= s) && FirstAt(s[1..], w, i - 1) && i + |w| <= |s|
  {
    StandsFirst(s, w);
    assert i + |w| <= |s|;
    hide StandsAt;
    assert !StandsAt(s, 0, w);
    forall j: nat ensures StandsAt(s[1..], j, w) <==> StandsAt(s, 1 + j, w) {
      StandsShifted(s, 1, j, w);
    }
    assert StandsAt(s, 1 + (i - 1), w);
  }

  lemma RemoveStep(s: string, w: string)
    requires w != [] && s != []
    ensures Remove(s, w) == if w <= s then Remove(s[|w|..], w) else [s[0]] + Remove(s[1..], w)
  {
  }

  lemma FirstOn(s: string, w: string, i: nat, later: string, after: string)
    requires 0 < i && i + |w| <= |s| && later == s[1..][..i - 1] + after
    ensures [s[0]] + later == s[..i] + after && s[1..][i - 1 + |w|..] == s[i + |w|..]
  {
    assert [s[0]] + s[1..][..i - 1] == s[..i];
  }

  lemma {:induction false} RemoveAtFirst(s: string, w: string, i: nat)
    requires w != [] && FirstAt(s, w, i)
    ensures i + |w| <= |s| && Remove(s, w) == s[..i] + Remove(s[i + |w|..], w)
    decreases |s|
  {
    hide StandsAt, FirstAt, Remove;
    if i == 0 {
      RemoveAtStart(s, w);
    } else {
      FirstLater(s, w, i);
      RemoveStep(s, w);
      RemoveAtFirst(s[1..], w, i - 1);
      FirstOn(s, w, i, Remove(s[1..], w), Remove(s[1..][i - 1 + |w|..], w));
    }
  }

  lemma RemoveAtStart(s: string, w: string)
    requires w != [] && FirstAt(s, w, 0)
    ensures |w| <= |s| && Remove(s, w) == s[..0] + Remove(s[0 + |w|..], w)
  {
    StandsFirst(s, w);
    assert w <= s;
    hide StandsAt, FirstAt;
    assert s[..0] + Remove(s[|w|..], w) == Remove(s[|w|..], w);
  }

  /** `r` is `s` without the markers of the list, deleted one after the other. */
  ghost predicate Purged(s: string, ms: seq<string>, r: string)
    decreases |ms|
  {
    if ms == [] then r == s
    else exists t :: Deletes(s, t, "[" + ms[0] + "]") && Purged(t, ms[1..], r)
  }

  lemma {:induction false} RemovingPurges(s: string, ms: seq<string>)
    ensures Purged(s, ms, RemoveAll(s, ms))
    decreases |ms|
  {
    hide Deletes, Remove;
    if ms != [] {
      var w := "[" + ms[0] + "]";
      assert w == Bracket(ms[0]);
      RemoveDeletes(s, w);
      RemovingPurges(Remove(s, w), ms[1..]);
    }
  }

  // ---------------------------------------------------------------------------
  // White space
  // ---------------------------------------------------------------------------

  /** The first white space from `i` on, or the end. */
  ghost function InkEnd(s: string, i: nat): (j: nat)
    requires i <= |s|
    ensures i <= j <= |s| && (j == |s| || IsSpace(s[j])) && (i < |s| && !IsSpace(s[i]) ==> i < j)
    decreases |s| - i
  {
    if i == |s| || IsSpace(s[i]) then i else InkEnd(s, i + 1)
  }

  /** The words of a text, as `split` gives them. */
  ghost function Words(s: string): seq<string>
    decreases |s|
  {
    if s == [] then []
    else if IsSpace(s[0]) then Words(s[1..])
    else [s[..InkEnd(s, 0)]] + Words(s[InkEnd(s, 0)..])
  }

  ghost predicate NoGap(s: string) {
    forall i, j | 0 <= i < j < |s| && j == i + 1 :: !(IsSpace(s[i]) && IsSpace(s[j]))
  }

  /** The words of `s`, with no white space around and one character of it between two. */
  ghost predicate Neat(r: string, s: string) {
    Words(r) == Words(s) && IsStripped(r) && NoGap(r)
  }

  lemma {:induction false} InkGrows(s: string, x: char, i: nat)
    requires i <= |s| && !IsSpace(x)
    ensures InkEnd([x] + s, i + 1) == InkEnd(s, i) + 1
    decreases |s| - i
  {
    hide IsSpace;
    if i < |s| && !IsSpace(s[i]) { InkGrows(s, x, i + 1); }
  }

  /** What the words are when one character is put in front. */
  lemma WordsCons(x: char, s: string)
    ensures IsSpace(x) ==> Words([x] + s) == Words(s)
    ensures !IsSpace(x) ==>
              Words([x] + s) == if s != [] && !IsSpace(s[0]) then [[x] + Words(s)[0]] + Words(s)[1..]
                                else [[x]] + Words(s)
  {
    hide IsSpace;
    var t := [x] + s;
    assert t[1..] == s;
    if !IsSpace(x) {
      InkGrows(s, x, 0);
      var e := InkEnd(s, 0);
      assert InkEnd(t, 0) == InkEnd(t, 1) == e + 1;
      assert t[..e + 1] == [x] + s[..e] && t[e + 1..] == s[e..];
    }
  }

  lemma {:induction false} SpacesAddNoWords(a: string, s: string)
    requires AllSpaces(a)
    ensures Words(a + s) == Words(s)
  {
    hide IsSpace, Words;
    if a == [] {
      assert a + s == s;
    } else {
      SpacesAddNoWords(a[1..], s);
      assert a + s == [a[0]] + (a[1..] + s);
      WordsCons(a[0], a[1..] + s);
    }
  }

  lemma NoWords()
    ensures Words([]) == []
  {
  }

  lemma {:induction false} SpacesEndNoWords(s: string, b: string)
    requires AllSpaces(b)
    ensures Words(s + b) == Words(s)
  {
    hide IsSpace, Words;
    if s == [] {
      assert s + b == b + [];
      SpacesAddNoWords(b, []);
    } else {
      SpacesEndNoWords(s[1..], b);
      assert s + b == [s[0]] + (s[1..] + b) && s == [s[0]] + s[1..];
      WordsCons(s[0], s[1..] + b);
      WordsCons(s[0], s[1..]);
      NoWords();
      if s[1..] == [] { assert s[1..] + b == b; }
    }
  }

  lemma StripKeepsWords(s: string)
    ensures Words(Strip(s)) == Words(s)
  {
    var a, b := StripCuts(s);
    hide IsSpace, Words, Strip;
    SpacesAddNoWords(a, Strip(s) + b);
    SpacesEndNoWords(Strip(s), b);
    assert a + (Strip(s) + b) == s;
  }

  lemma CollapseFirst(s: string)
    ensures s != [] ==> Collapse(s) != [] && (IsSpace(Collapse(s)[0]) <==> IsSpace(s[0]))
    ensures s == [] ==> Collapse(s) == []
  {
    BlankIsSpace();
    hide IsSpace;
  }

  /** Collapsing leaves the words as they are, and one white-space character between them. */
  lemma {:induction false} CollapseIs(s: string)
    ensures Words(Collapse(s)) == Words(s) && NoGap(Collapse(s))
    decreases |s|
  {
    BlankIsSpace();
    hide IsSpace, Words;
    if s != [] {
      var n := SkipSpaces(s, 0);
      if n >= 2 {
        var rest := Collapse(s[n..]);
        CollapseIs(s[n..]);
        CollapseFirst(s[n..]);
        assert s == s[0..n] + s[n..];
        SpacesAddNoWords(s[0..n], s[n..]);
        WordsCons(' ', rest);
        OneMoreFits(' ', rest);
      } else {
        var rest := Collapse(s[1..]);
        CollapseIs(s[1..]);
        CollapseFirst(s[1..]);
        assert s == [s[0]] + s[1..];
        WordsCons(s[0], s[1..]);
        WordsCons(s[0], rest);
        OneSpaceOnly(s);
        OneMoreFits(s[0], rest);
      }
    }
  }

  lemma OneSpaceOnly(s: string)
    requires s != [] && SkipSpaces(s, 0) < 2
    ensures |s| > 1 ==> !(IsSpace(s[0]) && IsSpace(s[1]))
  {
    hide IsSpace;
  }

  lemma OneMoreFits(x: char, s: string)
    requires NoGap(s) && (s != [] ==> !(IsSpace(x) && IsSpace(s[0])))
    ensures NoGap([x] + s)
  {
    hide IsSpace;
    var t := [x] + s;
    forall i, j | 0 <= i < j < |t| && j == i + 1 ensures !(IsSpace(t[i]) && IsSpace(t[j])) {
      if i > 0 { assert t[i] == s[i - 1] && t[j] == s[j - 1]; }
    }
  }

  lemma TidyIsNeat(s: string)
    ensures Neat(Tidy(s), s)
  {
    hide IsSpace, Words, Collapse, Strip;
    CollapseIs(s);
    StripKeepsWords(Collapse(s));
    StripIsStripped(Collapse(s));
    StripKeepsGaps(Collapse(s));
  }

  lemma StripKeepsGaps(s: string)
    requires NoGap(s)
    ensures NoGap(Strip(s))
  {
    var a, b := StripCuts(s);
    hide IsSpace, Strip;
    assert forall i | 0 <= i < |Strip(s)| :: Strip(s)[i] == s[|a| + i];
  }

  // ---------------------------------------------------------------------------
  // What becomes of a sentence, and of a bullet
  // ---------------------------------------------------------------------------

  ghost predicate ShowsSome(s: string) {
    exists m :: Shows(s, m)
  }

  ghost predicate ShowsOwn(s: string, allowed: set<string>) {
    exists m :: Shows(s, m) && m in allowed
  }

  ghost predicate ShowsForeign(s: string, allowed: set<string>) {
    exists m :: Shows(s, m) && m !in allowed
  }

  /** `r` is `s` without its foreign markers, each deleted once, in some order. */
  ghost predicate WithoutForeign(s: string, allowed: set<string>, r: string) {
    exists ms: seq<string> ::
      NoRepeats(ms) && (forall m :: m in ms <==> Shows(s, m) && m !in allowed) && Purged(s, ms, r)
  }

  /**
   * A sentence without a marker is dropped and one with markers of the evidence pack only is kept as it is. From any
   * other the foreign markers are deleted; it is kept, with its white space tidied, if a marker of the evidence
   * pack is left.
   */
  ghost predicate FateOfSentence(s: string, allowed: set<string>, out: Option<string>) {
    && (!ShowsSome(s) ==> out == None)
    && (ShowsSome(s) && !ShowsForeign(s, allowed) ==> out == Some(s))
    && (ShowsForeign(s, allowed) ==>
          (exists r :: WithoutForeign(s, allowed, r)
             && (out.Some? <==> ShowsOwn(r, allowed)) && (out.Some? ==> Neat(out.value, r))))
  }

  /** The text of a bullet: what is left without the bullet signs and blanks before it, and white space around it. */
  ghost predicate BulletText(raw: string, line: string) {
    exists i: nat :: i <= |raw| && line == Strip(raw[i..])
      && (forall k | 0 <= k < i :: raw[k] == '-' || raw[k] == '*' || raw[k] == ' ' || raw[k] == '\U{2022}')
      && (i < |raw| ==> raw[i] != '-' && raw[i] != '*' && raw[i] != ' ' && raw[i] != '\U{2022}')
  }

  /** The same for a bullet; one that needs no marker is kept if any text is left of it. */
  ghost predicate FateOfBullet(raw: string, allowed: set<string>, require: bool, out: Option<string>) {
    exists line :: BulletText(raw, line)
      && (line == [] || (require && !ShowsSome(line)) ==> out == None)
      && (line != [] && (require ==> ShowsSome(line)) && !ShowsForeign(line, allowed) ==> out == Some(line))
      && (ShowsForeign(line, allowed) ==>
            (exists r :: WithoutForeign(line, allowed, r)
               && (out.Some? <==> if require then ShowsOwn(r, allowed) else Words(r) != [])
               && (out.Some? ==> Neat(out.value, r))))
  }

  lemma ShownSets(s: string, allowed: set<string>)
    ensures ShowsSome(s) <==> LabelSet(s) != {}
    ensures ShowsOwn(s, allowed) <==> LabelSet(s) * allowed != {}
    ensures ShowsForeign(s, allowed) <==> !(LabelSet(s) <= allowed)
    ensures forall m :: m in LabelSet(s) <==> Shows(s, m)
  {
    hide LabelSet, Shows;
    forall m ensures m in LabelSet(s) <==> Shows(s, m) {
      LabelsAreShown(s, m);
    }
    if m :| m in LabelSet(s) && m !in allowed { assert Shows(s, m); }
    if m :| m in LabelSet(s) * allowed { assert Shows(s, m); }
    if m :| Shows(s, m) && m in allowed { assert m in LabelSet(s) * allowed; }
    if m :| m in LabelSet(s) { assert Shows(s, m); }
  }

  lemma CleanedIsPurged(s: string, allowed: set<string>, ord: Order)
    requires IsOrder(ord)
    ensures WithoutForeign(s, allowed, Cleaned(s, allowed, ord))
  {
    ShownSets(s, allowed);
    hide LabelSet, Shows, Purged, RemoveAll;
    var ms := ord(s, LabelSet(s) - allowed);
    RemovingPurges(s, ms);
    assert forall m :: m in ms <==> m in LabelSet(s) - allowed;
    assert NoRepeats(ms);
  }

  lemma SentenceHasItsFate(s: string, allowed: set<string>, ord: Order)
    requires IsOrder(ord)
    ensures FateOfSentence(s, allowed, KeepSentence(s, allowed, ord))
  {
    var cleaned := Cleaned(s, allowed, ord);
    ShownSets(s, allowed);
    ShownSets(cleaned, allowed);
    CleanedIsPurged(s, allowed, ord);
    TidyIsNeat(cleaned);
    hide LabelSet, Shows, ShowsSome, ShowsOwn, ShowsForeign, WithoutForeign, Neat, Cleaned, Tidy, IsOrder;
  }

  lemma {:induction false} DroppedSigns(raw: string) returns (i: nat)
    ensures i <= |raw| && DropBullets(raw) == raw[i..]
    ensures forall k | 0 <= k < i :: raw[k] == '-' || raw[k] == '*' || raw[k] == ' ' || raw[k] == '\U{2022}'
    ensures i < |raw| ==> raw[i] != '-' && raw[i] != '*' && raw[i] != ' ' && raw[i] != '\U{2022}'
  {
    i := 0;
    if raw != [] && IsBulletChar(raw[0]) {
      var j := DroppedSigns(raw[1..]);
      i := j + 1;
    }
  }

  lemma NeatIsText(r: string, s: string)
    requires Neat(r, s)
    ensures r == [] <==> Words(s) == []
  {
    hide IsSpace;
  }

  lemma BulletHasItsFate(raw: string, allowed: set<string>, ord: Order, require: bool)
    requires IsOrder(ord)
    ensures FateOfBullet(raw, allowed, require, KeepBullet(raw, allowed, ord, require))
  {
    var i := DroppedSigns(raw);
    var line := Strip(DropBullets(raw));
    assert BulletText(raw, line);
    var cleaned := Cleaned(line, allowed, ord);
    var tidy := Tidy(cleaned);
    ShownSets(line, allowed);
    ShownSets(tidy, allowed);
    CleanedIsPurged(line, allowed, ord);
    TidyIsNeat(cleaned);
    NeatIsText(tidy, cleaned);
    NoTextNoMarkers(line);
    NoTextNoMarkers(tidy);
    TidyShows(cleaned, allowed);
    hide LabelSet, Shows, ShowsSome, ShowsOwn, ShowsForeign, WithoutForeign, Neat, Cleaned, Tidy, IsOrder, Words, Strip,
      DropBullets, BulletText;
  }

  lemma TidyShows(s: string, allowed: set<string>)
    ensures ShowsOwn(Tidy(s), allowed) <==> ShowsOwn(s, allowed)
  {
    TidyMarkers(s);
    ShownSets(s, allowed);
    ShownSets(Tidy(s), allowed);
    hide MarkersOf, Tidy, ShowsOwn;
  }

  /**
   * What the report notes of a bullet that needed a marker and was dropped: its text if it had none, else the
   * whole line; nothing of a blank one.
   */
  lemma BulletIsNoted(raw: string, allowed: set<string>, ord: Order, require: bool) returns (line: string)
    ensures BulletText(raw, line)
    ensures BulletDrop(raw, allowed, ord, require) ==
            if require && line != [] && KeepBullet(raw, allowed, ord, require).None?
            then Some(if ShowsSome(line) then raw else line) else None
  {
    var i := DroppedSigns(raw);
    line := Strip(DropBullets(raw));
    assert BulletText(raw, line);
    ShownSets(line, allowed);
    hide LabelSet, ShowsSome, ShowsOwn, ShowsForeign, Shows, Cleaned, Tidy, Strip, DropBullets, BulletText;
  }
}
