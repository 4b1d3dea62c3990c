/**
 * Cutting a marker out of a text can put another one together from what stood on either side of it. When it
 * does, and which labels come about.
 */
module Splices {
  import opened Text
  import opened Markers

  /** Reading what is left of a text: what is open, and whether a cut lies inside it. */
  datatype Reader = Reader(st: Pending, bridged: bool)

  const FRESH := Reader(IDLE, false)

  function Read(r: Reader, c: char): Reader {
    Reader(Next(r.st, c), c != '[' && r.bridged && Next(r.st, c).open != "")
  }

  /** A cut is bridged if something is open there. */
  function Skip(r: Reader): Reader {
    Reader(r.st, r.st.open != "")
  }

  /** The labels of the markers put together by cutting `w` out: begun before an occurrence of it, completed after. */
  function SplicedBy(r: Reader, s: string, w: string): seq<string>
    decreases |s|
  {
    if s == [] || w == [] then []
    else if w <= s then SplicedBy(Skip(r), s[|w|..], w)
    else (if r.bridged && Completes(r.st, s[0]) then [r.st.open[1..]] else []) + SplicedBy(Read(r, s[0]), s[1..], w)
  }

  /** Inside a bridge the text itself has nothing open; elsewhere it has open what is left of it has. */
  predicate Agrees(r: Reader, st: Pending) {
    if r.bridged then st.open == "" else r.st.open == st.open
  }

  lemma ReadAgrees(r: Reader, st: Pending, c: char)
    requires Agrees(r, st)
    ensures Agrees(Read(r, c), Next(st, c))
    ensures Completes(st, c) <==> Completes(r.st, c) && !r.bridged
  {
    hide IsDigit;
  }

  /** `left` has the elements of `kept`, and beyond them those of `extra`. */
  ghost predicate Mixes(left: seq<string>, kept: seq<string>, extra: seq<string>) {
    && |left| == |kept| + |extra|
    && (extra == [] ==> left == kept)
    && (forall x :: x in left <==> x in kept || x in extra)
  }

  lemma MixesMore(x: string, left: seq<string>, kept: seq<string>, extra: seq<string>)
    requires Mixes(left, kept, extra)
    ensures Mixes([x] + left, [x] + kept, extra) && Mixes([x] + left, kept, [x] + extra)
  {
  }

  lemma CutMixes(r: Reader, st: Pending, rest: string, m: string)
    requires IsLabel(m)
    requires Mixes(Scan(r.st, Remove(rest, Bracket(m))), Without(Scan(IDLE, rest), m),
             SplicedBy(Skip(r), rest, Bracket(m)))
    ensures var s := Bracket(m) + rest;
            Mixes(Scan(r.st, Remove(s, Bracket(m))), Without(Scan(st, s), m), SplicedBy(r, s, Bracket(m)))
  {
    hide IsDigit, IsLabel, Scan, Mixes, Without;
    var w := Bracket(m);
    assert w <= w + rest && (w + rest)[|w|..] == rest;
    ScanConcat(st, w, rest);
    ReadMarker(st, m);
    WithoutConcat([m], Scan(IDLE, rest), m);
    WithoutItself(m);
    assert [] + Without(Scan(IDLE, rest), m) == Without(Scan(IDLE, rest), m);
    assert Without(Scan(st, w + rest), m) == Without(Scan(IDLE, rest), m);
    assert Remove(w + rest, w) == Remove(rest, w);
    assert SplicedBy(r, w + rest, w) == SplicedBy(Skip(r), rest, w);
  }

  lemma CharMixes(r: Reader, st: Pending, c: char, rest: string, m: string)
    requires Sane(st) && IsLabel(m) && Agrees(r, st) && !(Bracket(m) <= [c] + rest)
    requires st.open != "" ==> !(Bracket(m) <= st.open + ([c] + rest))
    requires Mixes(Scan(Next(r.st, c), Remove(rest, Bracket(m))), Without(Scan(Next(st, c), rest), m),
                   SplicedBy(Read(r, c), rest, Bracket(m)))
    ensures var s := [c] + rest;
            Mixes(Scan(r.st, Remove(s, Bracket(m))), Without(Scan(st, s), m), SplicedBy(r, s, Bracket(m)))
  {
    hide IsDigit, IsLabel, Scan, Mixes, Without, Bracket, Next, Remove, SplicedBy;
    var w := Bracket(m);
    var s := [c] + rest;
    StepOver(r, c, rest, w);
    ReadAgrees(r, st, c);
    ScanStep(st, c, rest);
    ScanStep(r.st, c, Remove(rest, w));
    var left, kept, extra := Scan(Next(r.st, c), Remove(rest, w)), Without(Scan(Next(st, c), rest), m),
                             SplicedBy(Read(r, c), rest, w);
    if Completes(r.st, c) {
      MixesMore(r.st.open[1..], left, kept, extra);
      if Completes(st, c) {
        assert st.open + s == st.open + [c] + rest;
        OtherCompleted(st, c, rest, m);
        WithoutConcat([st.open[1..]], Scan(Next(st, c), rest), m);
        WithoutOther(st.open[1..], m);
      }
    }
    assert [] + left == left && [] + extra == extra && [] + Scan(Next(st, c), rest) == Scan(Next(st, c), rest);
  }

  lemma StepOver(r: Reader, c: char, rest: string, w: string)
    requires w != [] && !(w <= [c] + rest)
    ensures Remove([c] + rest, w) == [c] + Remove(rest, w)
    ensures SplicedBy(r, [c] + rest, w) ==
            (if r.bridged && Completes(r.st, c) then [r.st.open[1..]] else []) + SplicedBy(Read(r, c), rest, w)
  {
    assert ([c] + rest)[1..] == rest;
  }

  lemma {:induction false} SplicesAreExtra(r: Reader, st: Pending, s: string, m: string)
    requires Sane(st) && IsLabel(m) && Agrees(r, st)
    requires st.open != "" ==> !(Bracket(m) <= st.open + s)
    ensures Mixes(Scan(r.st, Remove(s, Bracket(m))), Without(Scan(st, s), m), SplicedBy(r, s, Bracket(m)))
    decreases |s|
  {
    hide IsDigit, IsLabel, Mixes, Next, Agrees;
    var w := Bracket(m);
    if s == [] {
      NoneMix(m);
    } else if w <= s {
      var rest := s[|w|..];
      assert s == w + rest;
      SkipAgrees(r);
      SplicesAreExtra(Skip(r), IDLE, rest, m);
      hide Remove, SplicedBy, Scan, Without, Bracket;
      CutMixes(r, st, rest, m);
    } else {
      assert s == [s[0]] + s[1..];
      NextSane(st, s[0]);
      ReadAgrees(r, st, s[0]);
      NextNotAt(st, s, w);
      hide Remove, SplicedBy, Scan, Without, Bracket;
      SplicesAreExtra(Read(r, s[0]), Next(st, s[0]), s[1..], m);
      CharMixes(r, st, s[0], s[1..], m);
    }
  }

  lemma NoneMix(m: string)
    ensures Mixes([], Without([], m), [])
  {
  }

  lemma SkipAgrees(r: Reader)
    ensures Agrees(Skip(r), IDLE)
  {
  }

  /** The labels spliced when the marker is cut out of the text. */
  function SplicedIn(s: string, m: string): seq<string> {
    SplicedBy(FRESH, s, Bracket(m))
  }

  /**
   * Exactly when cutting a marker out removes that label and leaves all others as they were: when no marker is
   * begun before an occurrence of it and completed after. In any case what is left holds the other markers of
   * the text and those so spliced.
   */
  lemma RemovalIsExact(s: string, m: string)
    requires IsLabel(m)
    ensures MarkersOf(Remove(s, Bracket(m))) == Without(MarkersOf(s), m) <==> SplicedIn(s, m) == []
    ensures forall x :: x in MarkersOf(Remove(s, Bracket(m))) <==>
              (x in MarkersOf(s) && x != m) || x in SplicedIn(s, m)
  {
    hide IsLabel, Scan, Remove, SplicedBy, Without;
    assert Agrees(FRESH, IDLE);
    SplicesAreExtra(FRESH, IDLE, s, m);
    WithoutElements(MarkersOf(s), m);
  }

  // ---------------------------------------------------------------------------
  // A splice
  // ---------------------------------------------------------------------------

  lemma {:induction false} RemoveSkips(a: string, s: string, w: string)
    requires w != [] && w[0] !in a
    ensures Remove(a + s, w) == a + Remove(s, w)
  {
    if a == [] {
      assert a + s == s;
    } else {
      assert (a + s)[1..] == a[1..] + s && (a + s)[0] == a[0];
      RemoveSkips(a[1..], s, w);
    }
  }

  lemma DigitsTail(e: string)
    requires AllDigits(e)
    ensures MarkersOf(e + "]") == [] && Wedged(IDLE, e + "]") == {} && '[' !in e + "]"
  {
    hide IsDigit;
    forall c | c in e ensures c != '[' { MarkerPunctuationDigits(c); }
    ScanConcat(IDLE, e, "]");
    NothingOpens(e);
    NothingWedged(e);
    assert "]"[1..] == "";
    assert Scan(IDLE, "]") == [] + Scan(Next(IDLE, ']'), "");
  }

  lemma SpliceIsScanned(m: string, e: string)
    requires IsLabel(m) && AllDigits(e)
    ensures var s := "[S" + Bracket(m) + (e + "]");
            MarkersOf(s) == [m] && Wedged(IDLE, s) == {m}
  {
    hide IsDigit, Scan, Wedged, Bracket, IsLabel;
    var w := Bracket(m);
    assert "[S" + w + (e + "]") == "[S" + (w + (e + "]"));
    ScanConcat(IDLE, "[S", w + (e + "]"));
    OpenBracket(IDLE);
    ScanConcat(Pending("[S", false), w, e + "]");
    ReadMarker(Pending("[S", false), m);
    DigitsTail(e);
  }

  lemma SpliceIsRemoved(m: string, e: string, y: string)
    requires IsLabel(m) && AllDigits(e)
    ensures Remove("[S" + Bracket(m) + (e + "]") + y, Bracket(m)) == Bracket("S" + e) + Remove(y, Bracket(m))
  {
    hide IsDigit, Scan, Wedged, MarkersOf, Remove, IsLabel, AllDigits;
    var w := Bracket(m);
    WordOfLabel(m);
    DigitsTail(e);
    var rest := w + ((e + "]") + y);
    RemoveFirst(w, (e + "]") + y);
    RemoveSkips(e + "]", y, w);
    OpenStaysOpen(w, rest);
    assert "[S" + w + (e + "]") + y == "[S" + rest;
    assert "[" + ("S" + ((e + "]") + Remove(y, w))) == Bracket("S" + e) + Remove(y, w);
  }

  lemma RemoveFirst(w: string, rest: string)
    requires w != []
    ensures Remove(w + rest, w) == Remove(rest, w)
  {
    assert (w + rest)[|w|..] == rest && w <= w + rest;
  }

  lemma RemoveNothing(w: string)
    ensures Remove("", w) == ""
  {
  }

  lemma OpenStaysOpen(w: string, rest: string)
    requires |w| >= 3 && w[0] == '[' && w[2] != '[' && rest != [] && rest[0] == '['
    ensures Remove("[S" + rest, w) == "[" + ("S" + Remove(rest, w))
  {
    var s := "[S" + rest;
    assert s[1..] == "S" + rest && s[0] == '[' && s[2] == '[';
    assert ("S" + rest)[1..] == rest && ("S" + rest)[0] == 'S';
    assert !(w <= s);
    assert !(w <= s[1..]);
  }

  /** A marker cut out of an open `[S` leaves behind another that was not there before. */
  lemma RemovalCanSplice(m: string, e: string)
    requires IsLabel(m) && AllDigits(e) && e != []
    ensures var s := "[S" + Bracket(m) + (e + "]");
            && MarkersOf(s) == [m] && Wedged(IDLE, s) == {m}
            && MarkersOf(Remove(s, Bracket(m))) == ["S" + e]
  {
    hide IsDigit, Scan, Wedged, Remove;
    SpliceIsScanned(m, e);
    SpliceIsRemoved(m, e, "");
    RemoveNothing(Bracket(m));
    var s := "[S" + Bracket(m) + (e + "]");
    assert s + "" == s && Bracket("S" + e) + "" == Bracket("S" + e);
    assert ("S" + e)[1..] == e;
    ReadMarker(IDLE, "S" + e);
  }

  lemma WordOfLabel(m: string)
    requires IsLabel(m)
    ensures |Bracket(m)| >= 3 && Bracket(m)[0] == '[' && Bracket(m)[2] != '['
  {
    hide IsDigit;
    assert m[1] == m[1..][0] && m[1] in m[1..];
    MarkerPunctuationDigits(m[1]);
  }
}
