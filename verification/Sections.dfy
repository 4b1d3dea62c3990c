/** The six declared sections of a model's answer, told apart by their header lines. */
module Sections {
  import opened Wrappers
  import opened Text
  import opened Markers

  datatype Section = Answer | LegalBasis | PrivateMaterial | Conflicts | Confidence | Insufficient

  function Header(k: Section): string {
    match k
    case Answer => "answer:"
    case LegalBasis => "legal basis:"
    case PrivateMaterial => "supporting private material:"
    case Conflicts => "conflicts:"
    case Confidence => "confidence:"
    case Insufficient => "insufficient evidence:"
  }

  predicate StartsFolded(s: string, h: string) {
    |h| <= |s| && forall i | 0 <= i < |h| :: Lower(s[i]) == h[i]
  }

  /** The header a line begins with, spacing and case aside. */
  function HeaderOf(line: string): Option<Section> {
    var s := Strip(line);
    if StartsFolded(s, Header(Answer)) then Some(Answer)
    else if StartsFolded(s, Header(LegalBasis)) then Some(LegalBasis)
    else if StartsFolded(s, Header(PrivateMaterial)) then Some(PrivateMaterial)
    else if StartsFolded(s, Header(Conflicts)) then Some(Conflicts)
    else if StartsFolded(s, Header(Confidence)) then Some(Confidence)
    else if StartsFolded(s, Header(Insufficient)) then Some(Insufficient)
    else None
  }

  /** What follows the header on its own line. */
  function Remainder(line: string, k: Section): string {
    var s := Strip(line);
    if |Header(k)| <= |s| then Strip(s[|Header(k)|..]) else []
  }

  /** What one line adds to section `k` when `current` is the section being read. */
  function Adds(line: string, current: Section, k: Section): seq<string> {
    match HeaderOf(line)
    case Some(h) => if h == k && Remainder(line, h) != [] then [Remainder(line, h)] else []
    case None => if current == k then [line] else []
  }

  function Switch(line: string, current: Section): Section {
    if HeaderOf(line).Some? then HeaderOf(line).value else current
  }

  function Current(lines: seq<string>, current: Section): Section
    decreases |lines|
  {
    if lines == [] then current else Current(lines[1..], Switch(lines[0], current))
  }

  function Bucket(lines: seq<string>, current: Section, k: Section): seq<string>
    decreases |lines|
  {
    if lines == [] then []
    else Adds(lines[0], current, k) + Bucket(lines[1..], Switch(lines[0], current), k)
  }

  /** The text of a section: its lines, joined and stripped. Lines before any header belong to the answer. */
  function SectionText(text: string, k: Section): string {
    Strip(Join("\n", Bucket(SplitLines(text), Answer, k)))
  }

  lemma {:induction false} BucketConcat(a: seq<string>, b: seq<string>, current: Section, k: Section)
    ensures Current(a + b, current) == Current(b, Current(a, current))
    ensures Bucket(a + b, current, k) == Bucket(a, current, k) + Bucket(b, Current(a, current), k)
    decreases |a|
  {
    hide Switch, Adds;
    if a == [] {
      assert a + b == b;
    } else {
      assert (a + b)[1..] == a[1..] + b && (a + b)[0] == a[0];
      BucketConcat(a[1..], b, Switch(a[0], current), k);
    }
  }

  /** Sorts the lines into buckets, switching bucket at every header. */
  method SplitSections(text: string) returns (sections: map<Section, string>)
    ensures forall k: Section :: k in sections && sections[k] == SectionText(text, k)
  {
    hide HeaderOf, Remainder, Strip, Join, Bucket, Current;
    var lines := SplitLines(text);
    var buckets: map<Section, seq<string>> :=
      map[Answer := [], LegalBasis := [], PrivateMaterial := [], Conflicts := [], Confidence := [], Insufficient := []];
    var current := Answer;
    assert lines[..0] == [];
    EmptyBuckets();
    forall k: Section ensures k in buckets && buckets[k] == [] {
      match k {
        case Answer => case LegalBasis => case PrivateMaterial =>
        case Conflicts => case Confidence => case Insufficient =>
      }
    }
    for i := 0 to |lines|
      invariant current == Current(lines[..i], Answer)
      invariant forall k: Section :: k in buckets && buckets[k] == Bucket(lines[..i], Answer, k)
    {
      var line := lines[i];
      assert lines[..i + 1] == lines[..i] + [line];
      OneMore(lines[..i], line);
      var h := HeaderOf(line);
      if h.Some? {
        current := h.value;
        var rest := Remainder(line, current);
        if rest != [] { buckets := buckets[current := buckets[current] + [rest]]; }
      } else {
        buckets := buckets[current := buckets[current] + [line]];
      }
    }
    assert lines[..|lines|] == lines;
    sections := map k: Section | true :: Strip(Join("\n", buckets[k]));
  }

  lemma EmptyBuckets()
    ensures forall k: Section :: Bucket([], Answer, k) == []
    ensures Current([], Answer) == Answer
  {
  }

  lemma OneLineBucket(line: string, current: Section, k: Section)
    ensures Bucket([line], current, k) == Adds(line, current, k) && Current([line], current) == Switch(line, current)
  {
    hide Switch, Adds;
    assert [line][1..] == [];
    assert Bucket([line], current, k) == Adds(line, current, k) + Bucket([], Switch(line, current), k);
    assert Current([line], current) == Current([], Switch(line, current));
  }

  lemma OneMore(lines: seq<string>, line: string)
    ensures Current(lines + [line], Answer) == Switch(line, Current(lines, Answer))
    ensures forall k: Section ::
              Bucket(lines + [line], Answer, k) == Bucket(lines, Answer, k) + Adds(line, Current(lines, Answer), k)
  {
    hide Switch, Adds, Bucket, Current;
    forall k: Section
      ensures Current(lines + [line], Answer) == Switch(line, Current(lines, Answer))
      ensures Bucket(lines + [line], Answer, k) == Bucket(lines, Answer, k) + Adds(line, Current(lines, Answer), k)
    {
      BucketConcat(lines, [line], Answer, k);
      OneLineBucket(line, Current(lines, Answer), k);
    }
    assert Bucket(lines + [line], Answer, Answer) == Bucket(lines, Answer, Answer)
           + Adds(line, Current(lines, Answer), Answer);
  }

  // ---------------------------------------------------------------------------
  // Splitting into sections moves markers, and neither adds nor wedges any
  // ---------------------------------------------------------------------------

  /** `x` has no marker that `t` has not, and none wedged that is not wedged in `t`. */
  ghost predicate Inherits(x: string, t: string) {
    && (forall m | m in MarkersOf(x) :: m in MarkersOf(t))
    && Wedged(IDLE, x) <= Wedged(IDLE, t)
  }

  lemma SliceInherits(t: string, i: nat, j: nat)
    requires i <= j <= |t|
    ensures Inherits(t[i..j], t)
  {
    SliceMarkers(t, i, j);
  }

  lemma {:induction false} LinesInherit(t: string)
    ensures forall l | l in SplitLines(t) :: Inherits(l, t)
    decreases |t|
  {
    hide Inherits, IsBreak;
    if t != [] {
      var n := LineEnd(t);
      SliceInherits(t, 0, n);
      assert t[0..n] == t[..n];
      if n == |t| {
        assert t[..n] == t;
      } else {
        var skip := if t[n] == '\r' && n + 1 < |t| && t[n + 1] == '\n' then 2 else 1;
        var rest := t[n + skip..];
        SliceInherits(t, n + skip, |t|);
        assert t[n + skip..|t|] == rest;
        LinesInherit(rest);
        forall l | l in SplitLines(rest) ensures Inherits(l, t) { InheritsTrans(l, rest, t); }
      }
    }
  }

  lemma InheritsTrans(x: string, y: string, z: string)
    requires Inherits(x, y) && Inherits(y, z)
    ensures Inherits(x, z)
  {
    hide MarkersOf, Wedged;
  }

  lemma StripInherits(s: string)
    ensures Inherits(Strip(s), s)
  {
    StripMarkers(s);
  }

  lemma RemainderInherits(line: string, k: Section)
    ensures Inherits(Remainder(line, k), line)
  {
    hide Inherits, Strip, Header;
    var s := Strip(line);
    StripInherits(line);
    if |Header(k)| <= |s| {
      var rest := s[|Header(k)|..];
      SliceInherits(s, |Header(k)|, |s|);
      assert s[|Header(k)|..|s|] == rest;
      StripInherits(rest);
      InheritsTrans(Strip(rest), rest, s);
      InheritsTrans(Strip(rest), s, line);
    } else {
      SliceInherits(line, 0, 0);
      assert line[0..0] == [];
    }
  }

  lemma {:induction false} BucketInherits(lines: seq<string>, current: Section, k: Section, t: string)
    requires forall l | l in lines :: Inherits(l, t)
    ensures forall p | p in Bucket(lines, current, k) :: Inherits(p, t)
    decreases |lines|
  {
    hide Inherits, HeaderOf, Remainder;
    if lines != [] {
      assert lines[0] in lines;
      assert forall l | l in lines[1..] :: l in lines;
      BucketInherits(lines[1..], Switch(lines[0], current), k, t);
      forall p | p in Adds(lines[0], current, k) ensures Inherits(p, t) {
        RemainderInherits(lines[0], k);
        if p == Remainder(lines[0], k) { InheritsTrans(p, lines[0], t); }
      }
    }
  }

  lemma JoinInherits(c: char, parts: seq<string>, t: string)
    requires Separates(c) && forall p | p in parts :: Inherits(p, t)
    ensures Inherits(Join([c], parts), t)
  {
    hide Separates, Join, MarkersOf, Wedged;
    JoinMarkers(c, parts);
    AllMarkersAre(parts);
    AllWedgedWithin(parts, Wedged(IDLE, t));
  }

  lemma NewlineSeparates()
    ensures Separates('\n') && Separates(' ')
  {
    SpaceSeparates('\n');
    SpaceSeparates(' ');
  }

  /** A section has only markers of the text it was taken from. */
  lemma SectionInherits(text: string, k: Section)
    ensures Inherits(SectionText(text, k), text)
  {
    hide Inherits, Bucket, Strip, Join, Separates;
    LinesInherit(text);
    var parts := Bucket(SplitLines(text), Answer, k);
    BucketInherits(SplitLines(text), Answer, k, text);
    NewlineSeparates();
    JoinInherits('\n', parts, text);
    assert ['\n'] == "\n";
    StripInherits(Join("\n", parts));
    InheritsTrans(SectionText(text, k), Join("\n", parts), text);
  }
}
