/** Which lines of a reply belong to which section, said in characters. */
module Headings {
  import opened Wrappers
  import opened Text
  import opened Spelling
  import opened Sections

  // ---------------------------------------------------------------------------
  // Headings
  // ---------------------------------------------------------------------------

  ghost function Title(k: Section): string {
    match k
    case Answer => "answer:"
    case LegalBasis => "legal basis:"
    case PrivateMaterial => "supporting private material:"
    case Conflicts => "conflicts:"
    case Confidence => "confidence:"
    case Insufficient => "insufficient evidence:"
  }

  /** The line opens section `k`: its title, in whatever case and after any white space, up to `e`. */
  ghost predicate Heads(line: string, k: Section, e: nat) {
    exists a: nat :: SpacesTo(line, 0, a) && Reads(line, a, e, Title(k))
  }

  ghost predicate IsHeading(line: string, k: Section) {
    exists e: nat :: Heads(line, k, e)
  }

  ghost predicate Plain(line: string) {
    forall k: Section :: !IsHeading(line, k)
  }

  /** Line `i` is read for section `k`: the last heading so far is its own, or there was none and it is the answer. */
  ghost predicate BelongsTo(lines: seq<string>, i: nat, k: Section) {
    i < |lines|
    && ((k == Answer && forall n | 0 <= n <= i :: Plain(lines[n]))
        || exists j | 0 <= j <= i :: IsHeading(lines[j], k) && forall n | j < n <= i :: Plain(lines[n]))
  }

  /** What the line gives to the section: itself, or what stands after the title. */
  ghost predicate Gives(line: string, k: Section, part: string) {
    || (Plain(line) && part == line)
    || (part != [] && exists e: nat :: Heads(line, k, e) && part == Strip(line[e..]))
  }

  lemma TitleIs(k: Section)
    ensures Title(k) == Header(k) && |Title(k)| >= 7 && Title(k)[|Title(k)| - 1] == ':'
    ensures forall i | 0 <= i < |Title(k)| :: !('A' <= Title(k)[i] <= 'Z')
    ensures 'a' <= Title(k)[0] <= 'z'
  {
  }

  /** Titles begin with different letters, or have different fifth ones. */
  lemma TitlesDiffer(k: Section, k': Section)
    ensures k == k' || Title(k)[0] != Title(k')[0] || Title(k)[4] != Title(k')[4]
  {
  }

  lemma TitleStarts(line: string, a: nat, e: nat, h: string)
    requires Reads(line, a, e, h) && |h| >= 7 && h[|h| - 1] == ':' && 'a' <= h[0] <= 'z'
    requires forall i | 0 <= i < |h| :: !('A' <= h[i] <= 'Z')
    ensures e == a + |h| <= |line| && line[e - 1] == ':'
    ensures !IsSpace(line[a]) && Lower(line[a]) == h[0] && Lower(line[a + 4]) == h[4]
  {
    var last := |h| - 1;
    assert line[a + 0] == h[0] || line[a + 0] as int + 32 == h[0] as int;
    assert line[a + 4] == h[4] || line[a + 4] as int + 32 == h[4] as int;
    assert line[a + last] == h[last];
  }

  lemma OneHeading(line: string, k: Section, k': Section, e: nat, e': nat)
    requires Heads(line, k, e) && Heads(line, k', e')
    ensures k == k' && e == e'
  {
    TitleIs(k);
    TitleIs(k');
    TitlesDiffer(k, k');
    var h, h' := Title(k), Title(k');
    hide IsSpace, Title, Reads;
    var a: nat :| SpacesTo(line, 0, a) && Reads(line, a, e, h);
    var b: nat :| SpacesTo(line, 0, b) && Reads(line, b, e', h');
    TitleStarts(line, a, e, h);
    TitleStarts(line, b, e', h');
    assert a == b;
  }

  lemma StripBlank(s: string)
    requires AllSpaces(s)
    ensures Strip(s) == []
  {
    var a, b := StripCuts(s);
    hide IsSpace, Strip;
    forall i | 0 <= i < |Strip(s)| ensures IsSpace(Strip(s)[i]) {
      assert Strip(s)[i] == s[|a| + i];
    }
  }

  lemma StripForgets(x: string, b: string)
    requires AllSpaces(b)
    ensures Strip(x + b) == Strip(x)
  {
    var before, after := StripCuts(x);
    hide IsSpace, Strip;
    var s := Strip(x);
    if s == [] {
      StripBlank(x + b);
    } else {
      StripDropsSpaces(before, s, after + b);
      assert before + s + (after + b) == x + b;
    }
  }

  lemma TitleIsInside(line: string, a: string, s: string, b: string, p: nat, e: nat)
    requires line == a + s + b && AllSpaces(a) && AllSpaces(b) && IsStripped(s)
    requires SpacesTo(line, 0, p) && p < e <= |line| && !IsSpace(line[p]) && line[e - 1] == ':'
    ensures p == |a| && e <= |a| + |s|
  {
    assert !IsSpace(':');
    hide IsSpace;
    forall i | 0 <= i < |line| && (i < |a| || i >= |a| + |s|) ensures IsSpace(line[i]) {
      assert line[i] == if i < |a| then a[i] else b[i - |a| - |s|];
    }
    assert s != [] ==> line[|a|] == s[0];
  }

  /** A title at the start of the stripped line is one after the white space at the start of the line. */
  lemma TitleIsThere(line: string, h: string, a: string, s: string, b: string, p: nat, e: nat)
    requires line == a + s + b && AllSpaces(a) && AllSpaces(b) && IsStripped(s)
    requires |h| >= 7 && h[|h| - 1] == ':' && 'a' <= h[0] <= 'z' && forall i | 0 <= i < |h| :: !('A' <= h[i] <= 'Z')
    ensures SpacesTo(line, 0, p) && Reads(line, p, e, h) ==> StartsFolded(s, h) && p == |a| && e == p + |h|
    ensures StartsFolded(s, h) ==> SpacesTo(line, 0, |a|) && Reads(line, |a|, |a| + |h|, h)
  {
    FoldedIs(line, |a|, |a| + |h|, h);
    assert forall i | 0 <= i < |s| :: line[|a| + i] == s[i];
    if SpacesTo(line, 0, p) && Reads(line, p, e, h) {
      TitleStarts(line, p, e, h);
      TitleIsInside(line, a, s, b, p, e);
    }
    hide IsSpace, Lower;
    if StartsFolded(s, h) {
      assert FoldsAt(line, |a|, h);
      assert forall i | 0 <= i < |a| :: line[i] == a[i];
    }
  }

  lemma HeadsThere(line: string, k: Section, a: string, b: string)
    requires line == a + Strip(line) + b && AllSpaces(a) && AllSpaces(b) && IsStripped(Strip(line))
    ensures StartsFolded(Strip(line), Header(k)) <==> IsHeading(line, k)
    ensures StartsFolded(Strip(line), Header(k)) ==> Heads(line, k, |a| + |Title(k)|)
  {
    TitleIs(k);
    hide IsSpace, Strip, StartsFolded, Reads, SpacesTo, Title;
    forall p: nat, e: nat
      ensures SpacesTo(line, 0, p) && Reads(line, p, e, Title(k)) ==> StartsFolded(Strip(line), Title(k))
      ensures StartsFolded(Strip(line), Title(k)) ==>
                SpacesTo(line, 0, |a|) && Reads(line, |a|, |a| + |Title(k)|, Title(k))
    {
      TitleIsThere(line, Title(k), a, Strip(line), b, p, e);
    }
    TitleIsThere(line, Title(k), a, Strip(line), b, 0, 0);
    if StartsFolded(Strip(line), Title(k)) { assert Heads(line, k, |a| + |Title(k)|); }
  }

  lemma HeadingIs(line: string, k: Section)
    ensures HeaderOf(line) == Some(k) <==> IsHeading(line, k)
  {
    var a, b := StripCuts(line);
    forall k': Section ensures StartsFolded(Strip(line), Header(k')) <==> IsHeading(line, k') {
      HeadsThere(line, k', a, b);
    }
    hide IsSpace, Strip, StartsFolded, Heads, Header;
    if HeaderOf(line).Some? && IsHeading(line, k) {
      var h := HeaderOf(line).value;
      assert IsHeading(line, h);
      var e: nat :| Heads(line, h, e);
      var e': nat :| Heads(line, k, e');
      OneHeading(line, h, k, e, e');
    }
  }

  /** What stands after the title is what is kept of the line. */
  lemma RestIsThere(line: string, k: Section, e: nat)
    requires Heads(line, k, e)
    ensures e <= |line| && Remainder(line, k) == Strip(line[e..])
  {
    var a, b := StripCuts(line);
    TitleIs(k);
    var h, s := Title(k), Strip(line);
    hide IsSpace, Strip, Title, Reads;
    var p: nat :| SpacesTo(line, 0, p) && Reads(line, p, e, h);
    TitleIsThere(line, h, a, s, b, p, e);
    StripForgets(s[|h|..], b);
    assert line[e..] == s[|h|..] + b;
  }

  // ---------------------------------------------------------------------------
  // Which lines a section has
  // ---------------------------------------------------------------------------

  lemma BelongsEarlier(lines: seq<string>, n: nat, i: nat, k: Section)
    requires i < n <= |lines|
    ensures BelongsTo(lines, i, k) <==> BelongsTo(lines[..n], i, k)
  {
    hide IsHeading, Plain;
  }

  lemma PlainIs(line: string)
    ensures Plain(line) <==> HeaderOf(line).None?
  {
    hide IsHeading, HeaderOf;
    forall k: Section ensures HeaderOf(line) == Some(k) <==> IsHeading(line, k) {
      HeadingIs(line, k);
    }
    if HeaderOf(line).Some? { assert IsHeading(line, HeaderOf(line).value); }
  }

  lemma LastOne(lines: seq<string>, k: Section)
    requires lines != []
    ensures var n := |lines| - 1;
            && (IsHeading(lines[n], k) ==> BelongsTo(lines, n, k))
            && (Plain(lines[n]) ==>
                  (BelongsTo(lines, n, k) <==> if n == 0 then k == Answer else BelongsTo(lines, n - 1, k)))
            && (!Plain(lines[n]) && !IsHeading(lines[n], k) ==> !BelongsTo(lines, n, k))
  {
    hide IsHeading, Plain;
    var n: nat := |lines| - 1;
    NotBoth(lines[n], k);
    if Plain(lines[n]) && n > 0 {
      assert forall i | 0 <= i <= n :: Plain(lines[i]) <==> i == n || Plain(lines[i]);
    }
  }

  lemma NotBoth(line: string, k: Section)
    ensures !(Plain(line) && IsHeading(line, k))
  {
    hide IsHeading;
  }

  /** The section being read after the lines is the one the last of them belongs to. */
  lemma {:induction false} CurrentIs(lines: seq<string>, k: Section)
    requires lines != []
    ensures BelongsTo(lines, |lines| - 1, k) <==> k == Current(lines, Answer)
  {
    hide IsHeading, Plain, BelongsTo, HeaderOf, Current;
    var n := |lines| - 1;
    LastOne(lines, k);
    assert lines == lines[..n] + [lines[n]];
    OneMore(lines[..n], lines[n]);
    HeadingIs(lines[n], k);
    PlainIs(lines[n]);
    if n == 0 {
      assert lines[..n] == [];
      EmptyBuckets();
    } else {
      CurrentIs(lines[..n], k);
      BelongsEarlier(lines, n, n - 1, k);
    }
  }

  /** The parts are what the lines at the given places give to the section, and no other line gives it anything. */
  ghost predicate Collects(lines: seq<string>, k: Section, at: seq<nat>, parts: seq<string>) {
    && |at| == |parts| && (forall n, m | 0 <= n < m < |at| :: at[n] < at[m])
    && (forall n | 0 <= n < |at| :: BelongsTo(lines, at[n], k) && Gives(lines[at[n]], k, parts[n]))
    && forall i, p | 0 <= i < |lines| && BelongsTo(lines, i, k) && Gives(lines[i], k, p) :: i in at
  }

  /** What the last line adds to a section, if anything. */
  lemma LastGives(lines: seq<string>, k: Section)
    requires lines != []
    ensures var n := |lines| - 1;
            var added := Adds(lines[n], Current(lines[..n], Answer), k);
            && Bucket(lines, Answer, k) == Bucket(lines[..n], Answer, k) + added
            && |added| <= 1
            && forall p :: BelongsTo(lines, n, k) && Gives(lines[n], k, p) <==> added == [p]
  {
    var n: nat := |lines| - 1;
    var line, before := lines[n], lines[..n];
    assert lines == before + [line];
    OneMore(before, line);
    CurrentIs(lines, k);
    HeadingIs(line, k);
    PlainIs(line);
    var added := Adds(line, Current(before, Answer), k);
    hide BelongsTo, Current, Bucket, HeaderOf, Plain, IsHeading, Remainder, Heads;
    assert IsHeading(line, k) ==> HeaderOf(line) == Some(k);
    forall p ensures BelongsTo(lines, n, k) && Gives(line, k, p) <==> added == [p] {
      WhatIsGiven(line, k, p);
    }
  }

  lemma WhatIsGiven(line: string, k: Section, p: string)
    ensures Gives(line, k, p) <==>
            || (Plain(line) && p == line)
            || (IsHeading(line, k) && p != [] && p == Remainder(line, k))
  {
    hide Plain, Heads, Remainder;
    forall e: nat | Heads(line, k, e) ensures e <= |line| && Remainder(line, k) == Strip(line[e..]) {
      RestIsThere(line, k, e);
    }
  }

  lemma CollectsMore(lines: seq<string>, k: Section, at: seq<nat>, parts: seq<string>, p: string)
    requires lines != [] && Collects(lines[..|lines| - 1], k, at, parts)
    requires BelongsTo(lines, |lines| - 1, k) && Gives(lines[|lines| - 1], k, p)
    requires forall i | 0 <= i < |lines| - 1 :: BelongsTo(lines, i, k) <==> BelongsTo(lines[..|lines| - 1], i, k)
    ensures Collects(lines, k, at + [|lines| - 1], parts + [p])
  {
    hide BelongsTo, Gives;
    var n: nat := |lines| - 1;
    var all := at + [n];
    assert forall i | 0 <= i < |at| :: at[i] < n by {
      forall i | 0 <= i < |at| ensures at[i] < n { PlaceIsInside(lines[..n], at[i], k); }
    }
    forall i, x | 0 <= i < |lines| && BelongsTo(lines, i, k) && Gives(lines[i], k, x) ensures i in all {
      if i < n { assert i in at; } else { assert all[|at|] == n; }
    }
  }

  lemma CollectsNoMore(lines: seq<string>, n: nat, k: Section, at: seq<nat>, parts: seq<string>)
    requires |lines| == n + 1 && Collects(lines[..n], k, at, parts)
    requires forall p :: !(BelongsTo(lines, n, k) && Gives(lines[n], k, p))
    requires forall i | 0 <= i < n :: BelongsTo(lines, i, k) <==> BelongsTo(lines[..n], i, k)
    ensures Collects(lines, k, at, parts)
  {
    hide BelongsTo, Gives;
    forall i | 0 <= i < |at| ensures at[i] < n { PlaceIsInside(lines[..n], at[i], k); }
  }

  lemma PlaceIsInside(lines: seq<string>, i: nat, k: Section)
    requires BelongsTo(lines, i, k)
    ensures i < |lines|
  {
  }

  lemma {:induction false} BucketCollects(lines: seq<string>, k: Section) returns (at: seq<nat>)
    ensures Collects(lines, k, at, Bucket(lines, Answer, k))
  {
    hide BelongsTo, Gives, Bucket, Current, Adds;
    if lines == [] {
      at := [];
      EmptyBuckets();
    } else {
      var n := |lines| - 1;
      var before := BucketCollects(lines[..n], k);
      LastGives(lines, k);
      var older := Bucket(lines[..n], Answer, k);
      forall i | 0 <= i < n ensures BelongsTo(lines, i, k) <==> BelongsTo(lines[..n], i, k) {
        BelongsEarlier(lines, n, i, k);
      }
      var added := Adds(lines[n], Current(lines[..n], Answer), k);
      if added == [] {
        at := before;
        CollectsNoMore(lines, n, k, before, older);
      } else {
        at := before + [n];
        assert added == [added[0]];
        CollectsMore(lines, k, before, older, added[0]);
      }
    }
  }

  /** A section's text is what its lines give it, one under the other. */
  lemma SectionCollects(text: string, k: Section) returns (at: seq<nat>, parts: seq<string>)
    ensures Collects(SplitLines(text), k, at, parts) && SectionText(text, k) == Strip(Join("\n", parts))
  {
    hide Collects, Bucket, Strip, Join;
    at := BucketCollects(SplitLines(text), k);
    parts := Bucket(SplitLines(text), Answer, k);
  }
}
