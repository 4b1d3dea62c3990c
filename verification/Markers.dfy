/**
 * Citation markers `[S<digits>]` in text: an automaton that reads them off, the occurrences
 * they stand for, and what cutting a marker out of a text does to the others.
 */
module Markers {
  import opened Wrappers
  import opened Text

  /** The name inside a marker, such as `S12`. */
  predicate IsLabel(m: string) {
    |m| >= 2 && m[0] == 'S' && AllDigits(m[1..])
  }

  function Bracket(m: string): string {
    "[" + m + "]"
  }

  // ---------------------------------------------------------------------------
  // The automaton
  // ---------------------------------------------------------------------------

  /**
   * What has been read of a marker that is still open: nothing, `[`, `[S` or `[S<digits>`;
   * and whether its `[` came while another one was open.
   */
  datatype Pending = Pending(open: string, nested: bool)

  const IDLE := Pending("", false)

  predicate Completes(st: Pending, c: char) {
    |st.open| >= 3 && c == ']'
  }

  function Next(st: Pending, c: char): Pending {
    if c == '[' then Pending("[", st.open != "")
    else if st.open == "[" && c == 'S' then Pending("[S", st.nested)
    else if |st.open| >= 2 && IsDigit(c) then Pending(st.open + [c], st.nested)
    else IDLE
  }

  /** The labels of the markers completed while reading `s`. */
  function Scan(st: Pending, s: string): seq<string>
    decreases |s|
  {
    if s == [] then []
    else (if Completes(st, s[0]) then [st.open[1..]] else []) + Scan(Next(st, s[0]), s[1..])
  }

  function End(st: Pending, s: string): Pending
    decreases |s|
  {
    if s == [] then st else End(Next(st, s[0]), s[1..])
  }

  /** The labels of the markers completed whose `[` came right after an open `[`, `[S` or `[S<digits>`. */
  function Wedged(st: Pending, s: string): set<string>
    decreases |s|
  {
    if s == [] then {}
    else (if Completes(st, s[0]) && st.nested then {st.open[1..]} else {}) + Wedged(Next(st, s[0]), s[1..])
  }

  /** The markers of a text, in order of appearance. */
  function MarkersOf(s: string): seq<string> {
    Scan(IDLE, s)
  }

  /** A state the automaton can be in. */
  predicate Sane(st: Pending) {
    || st.open == "" || st.open == "["
    || (|st.open| >= 2 && st.open[0] == '[' && st.open[1] == 'S' && AllDigits(st.open[2..]))
  }

  lemma NextSane(st: Pending, c: char)
    requires Sane(st)
    ensures Sane(Next(st, c))
  {
    hide IsDigit;
    if |st.open| >= 2 { assert (st.open + [c])[2..] == st.open[2..] + [c]; }
  }

  lemma {:induction false} ScanLabels(st: Pending, s: string)
    requires Sane(st)
    ensures forall m | m in Scan(st, s) :: IsLabel(m)
    decreases |s|
  {
    hide IsDigit, Next;
    if s != [] {
      NextSane(st, s[0]);
      ScanLabels(Next(st, s[0]), s[1..]);
      if Completes(st, s[0]) { assert st.open[1..][1..] == st.open[2..]; }
    }
  }

  // ---------------------------------------------------------------------------
  // Reading one text after another
  // ---------------------------------------------------------------------------

  lemma {:induction false} ScanConcat(st: Pending, a: string, b: string)
    ensures Scan(st, a + b) == Scan(st, a) + Scan(End(st, a), b)
    ensures End(st, a + b) == End(End(st, a), b)
    ensures Wedged(st, a + b) == Wedged(st, a) + Wedged(End(st, a), b)
    decreases |a|
  {
    hide Next, Completes;
    if a == [] {
      assert a + b == b;
      hide Scan, End, Wedged;
      ReadNothing(st);
      assert [] + Scan(st, b) == Scan(st, b) && {} + Wedged(st, b) == Wedged(st, b);
    } else {
      assert (a + b)[1..] == a[1..] + b && (a + b)[0] == a[0];
      ScanConcat(Next(st, a[0]), a[1..], b);
      ReadFirst(st, a);
      ReadFirst(st, a + b);
      hide Scan, End, Wedged;
    }
  }

  lemma ReadNothing(st: Pending)
    ensures Scan(st, []) == [] && End(st, []) == st && Wedged(st, []) == {}
  {
  }

  lemma ReadFirst(st: Pending, s: string)
    requires s != []
    ensures Scan(st, s) == (if Completes(st, s[0]) then [st.open[1..]] else []) + Scan(Next(st, s[0]), s[1..])
    ensures End(st, s) == End(Next(st, s[0]), s[1..])
    ensures Wedged(st, s) ==
            (if Completes(st, s[0]) && st.nested then {st.open[1..]} else {}) + Wedged(Next(st, s[0]), s[1..])
  {
    hide Next, Completes;
  }

  /** A character no marker contains forgets whatever was open. */
  predicate Separates(c: char) {
    c !in "[]S" && !IsDigit(c)
  }

  lemma SpaceSeparates(c: char)
    requires IsSpace(c)
    ensures Separates(c)
  {
    DigitsAreNotSpaces(c);
  }

  lemma ScanSeparator(st: Pending, c: char, s: string)
    requires Separates(c)
    ensures Scan(st, [c] + s) == Scan(IDLE, s) && End(st, [c] + s) == End(IDLE, s)
    ensures Wedged(st, [c] + s) == Wedged(IDLE, s)
  {
    hide IsDigit;
    assert ([c] + s)[1..] == s;
  }

  lemma ScanAcross(a: string, c: char, b: string)
    requires Separates(c)
    ensures MarkersOf(a + [c] + b) == MarkersOf(a) + MarkersOf(b)
    ensures Wedged(IDLE, a + [c] + b) == Wedged(IDLE, a) + Wedged(IDLE, b)
  {
    hide Separates;
    assert a + [c] + b == a + ([c] + b);
    ScanConcat(IDLE, a, [c] + b);
    ScanSeparator(End(IDLE, a), c, b);
  }

  lemma {:induction false} ScanSpaces(a: string)
    requires AllSpaces(a)
    ensures MarkersOf(a) == [] && End(IDLE, a) == IDLE && Wedged(IDLE, a) == {}
  {
    hide IsSpace, Separates, Next, Completes;
    if a != [] {
      SpaceSeparates(a[0]);
      ScanSeparator(IDLE, a[0], a[1..]);
      assert a == [a[0]] + a[1..];
      ScanSpaces(a[1..]);
    }
  }

  /** Starting afresh never finds more, and never finds more wedged, than carrying on from an open state. */
  ghost predicate Fresher(anew: Pending, st: Pending) {
    anew.open == "" || (anew.open == st.open && (anew.nested ==> st.nested))
  }

  lemma {:induction false} FreshStart(anew: Pending, st: Pending, s: string)
    requires Fresher(anew, st)
    ensures forall m | m in Scan(anew, s) :: m in Scan(st, s)
    ensures Wedged(anew, s) <= Wedged(st, s)
    decreases |s|
  {
    hide IsDigit;
    if s != [] {
      FreshStart(Next(anew, s[0]), Next(st, s[0]), s[1..]);
    }
  }

  /** A slice of a text holds no markers, and no wedged ones, that the text does not. */
  lemma SliceMarkers(t: string, i: nat, j: nat)
    requires i <= j <= |t|
    ensures forall m | m in MarkersOf(t[i..j]) :: m in MarkersOf(t)
    ensures Wedged(IDLE, t[i..j]) <= Wedged(IDLE, t)
  {
    assert t == t[..i] + (t[i..j] + t[j..]);
    ScanConcat(IDLE, t[..i], t[i..j] + t[j..]);
    var st := End(IDLE, t[..i]);
    ScanConcat(st, t[i..j], t[j..]);
    FreshStart(IDLE, st, t[i..j]);
  }

  /** White space around a text hides nothing and adds nothing. */
  lemma StripMarkers(s: string)
    ensures MarkersOf(Strip(s)) == MarkersOf(s)
    ensures Wedged(IDLE, Strip(s)) == Wedged(IDLE, s)
  {
    var a, b := StripCuts(s);
    hide Strip, IsStripped;
    var x := Strip(s);
    assert s == a + (x + b);
    ScanConcat(IDLE, a, x + b);
    ScanSpaces(a);
    ScanConcat(IDLE, x, b);
    SpacesLast(End(IDLE, x), b);
  }

  lemma SpacesLast(st: Pending, b: string)
    requires AllSpaces(b)
    ensures Scan(st, b) == [] && Wedged(st, b) == {}
  {
    hide IsSpace, Separates;
    if b != [] {
      SpaceSeparates(b[0]);
      assert b == [b[0]] + b[1..];
      ScanSeparator(st, b[0], b[1..]);
      ScanSpaces(b[1..]);
    }
  }

  /** Joining with a separating character: the markers of the parts, one after the other. */
  function AllMarkers(parts: seq<string>): seq<string> {
    if parts == [] then [] else MarkersOf(parts[0]) + AllMarkers(parts[1..])
  }

  function AllWedged(parts: seq<string>): set<string> {
    if parts == [] then {} else Wedged(IDLE, parts[0]) + AllWedged(parts[1..])
  }

  lemma {:induction false} JoinMarkers(c: char, parts: seq<string>)
    requires Separates(c)
    ensures MarkersOf(Join([c], parts)) == AllMarkers(parts)
    ensures Wedged(IDLE, Join([c], parts)) == AllWedged(parts)
  {
    hide Separates;
    if |parts| <= 1 {
      if |parts| == 1 { assert AllMarkers(parts[1..]) == [] && AllWedged(parts[1..]) == {}; }
    } else {
      JoinMarkers(c, parts[1..]);
      ScanAcross(parts[0], c, Join([c], parts[1..]));
    }
  }

  lemma {:induction false} AllMarkersAre(parts: seq<string>)
    ensures forall m :: m in AllMarkers(parts) <==> exists p :: p in parts && m in MarkersOf(p)
  {
    hide MarkersOf;
    if parts != [] {
      AllMarkersAre(parts[1..]);
      forall m ensures m in AllMarkers(parts) <==> exists p :: p in parts && m in MarkersOf(p) {
        assert parts == [parts[0]] + parts[1..];
        if m in MarkersOf(parts[0]) { assert parts[0] in parts; }
      }
    }
  }

  lemma {:induction false} AllWedgedWithin(parts: seq<string>, ok: set<string>)
    ensures AllWedged(parts) <= ok <==> forall p | p in parts :: Wedged(IDLE, p) <= ok
  {
    hide Wedged;
    if parts == [] {
      assert AllWedged(parts) == {};
    } else {
      AllWedgedWithin(parts[1..], ok);
      assert AllWedged(parts) == Wedged(IDLE, parts[0]) + AllWedged(parts[1..]);
      assert parts[0] in parts && forall p | p in parts[1..] :: p in parts;
      assert forall p | p in parts :: p == parts[0] || p in parts[1..];
    }
  }

  // ---------------------------------------------------------------------------
  // The automaton finds exactly the occurrences
  // ---------------------------------------------------------------------------

  lemma ReadDigit(st: Pending, c: char)
    requires |st.open| >= 2 && IsDigit(c)
    ensures Next(st, c) == Pending(st.open + [c], st.nested) && !Completes(st, c)
  {
    MarkerPunctuationDigits(c);
    hide IsDigit;
  }

  lemma {:induction false} ReadDigits(st: Pending, d: string)
    requires |st.open| >= 2 && AllDigits(d)
    ensures End(st, d) == Pending(st.open + d, st.nested) && Scan(st, d) == [] && Wedged(st, d) == {}
    decreases |d|
  {
    hide IsDigit, Next, Completes;
    if d == [] {
      assert st.open + d == st.open;
    } else {
      assert d[0] in d;
      ReadDigit(st, d[0]);
      ReadDigits(Next(st, d[0]), d[1..]);
      assert st.open + [d[0]] + d[1..] == st.open + d;
    }
  }

  lemma MarkerPunctuationDigits(c: char)
    requires IsDigit(c)
    ensures c !in "[]S"
  {
  }

  /** Reading a whole marker reports its label, whatever came before. */
  lemma ReadMarker(st: Pending, m: string)
    requires IsLabel(m)
    ensures Scan(st, Bracket(m)) == [m] && End(st, Bracket(m)) == IDLE
    ensures Wedged(st, Bracket(m)) == if st.open == "" then {} else {m}
  {
    hide IsDigit;
    var d := m[1..];
    assert Bracket(m) == "[S" + (d + "]");
    ScanConcat(st, "[S", d + "]");
    OpenBracket(st);
    var st2 := End(st, "[S");
    ScanConcat(st2, d, "]");
    ReadDigits(st2, d);
    var st3 := End(st2, d);
    assert st3.open == "[S" + d == "[" + m;
    assert !IsDigit(']') by { MarkerPunctuation(']'); }
    assert Scan(st3, "]") == [m] + Scan(IDLE, "]"[1..]);
    assert Wedged(st3, "]") == (if st3.nested then {m} else {}) + Wedged(IDLE, "]"[1..]);
  }

  lemma OpenBracket(st: Pending)
    ensures End(st, "[S") == Pending("[S", st.open != "") && Scan(st, "[S") == [] && Wedged(st, "[S") == {}
  {
    hide IsDigit;
    assert "[S"[1..] == "S" && "S"[1..] == "";
    var st1 := Next(st, '[');
    assert Next(st1, 'S') == Pending("[S", st.open != "");
    assert Scan(st1, "S") == [] && End(st1, "S") == Pending("[S", st.open != "") && Wedged(st1, "S") == {};
  }

  /** What is open after a character is the end of what was open with that character. */
  lemma NextIsSuffix(st: Pending, c: char) returns (skipped: nat)
    ensures skipped <= |st.open| + 1 && Next(st, c).open == (st.open + [c])[skipped..]
  {
    hide IsDigit;
    skipped := |st.open| + 1 - |Next(st, c).open|;
  }

  lemma OccursAfter(a: string, k: nat, w: string)
    requires k <= |a| && Contains(a[k..], w)
    ensures Contains(a, w)
  {
    var i: nat :| Occurs(a[k..], i, w);
    assert a[k..][i..i + |w|] == a[k + i..k + i + |w|];
    assert Occurs(a, k + i, w);
  }

  lemma CompletedOccurs(st: Pending, s: string)
    requires Sane(st) && s != [] && Completes(st, s[0])
    ensures Contains(st.open + s, Bracket(st.open[1..]))
  {
    hide IsDigit;
    assert st.open + s == Bracket(st.open[1..]) + s[1..];
    assert Occurs(st.open + s, 0, Bracket(st.open[1..]));
  }

  lemma {:induction false} ScanFindsOccurrences(st: Pending, s: string, m: string)
    requires Sane(st) && m in Scan(st, s)
    ensures Contains(st.open + s, Bracket(m))
    decreases |s|
  {
    hide IsDigit, Next, Contains, Bracket, Sane;
    if s != [] {
      var c, st' := s[0], Next(st, s[0]);
      if Completes(st, c) && m == st.open[1..] {
        CompletedOccurs(st, s);
      } else {
        NextSane(st, c);
        ScanFindsOccurrences(st', s[1..], m);
        var skipped := NextIsSuffix(st, c);
        assert (st.open + s)[skipped..] == st'.open + s[1..] by {
          assert st.open + s == st.open + [c] + s[1..];
        }
        OccursAfter(st.open + s, skipped, Bracket(m));
      }
    }
  }

  /** A label is reported exactly when its marker occurs somewhere in the text. */
  lemma MarkersAreOccurrences(s: string, m: string)
    ensures m in MarkersOf(s) <==> IsLabel(m) && Contains(s, Bracket(m))
  {
    if m in MarkersOf(s) {
      ScanLabels(IDLE, s);
      ScanFindsOccurrences(IDLE, s, m);
      assert IDLE.open + s == s;
    }
    hide IsDigit, MarkersOf;
    if IsLabel(m) && Contains(s, Bracket(m)) { OccurrenceIsScanned(s, m); }
  }

  lemma OccurrenceIsScanned(s: string, m: string)
    requires IsLabel(m) && Contains(s, Bracket(m))
    ensures m in MarkersOf(s)
  {
    var i: nat :| Occurs(s, i, Bracket(m));
    var j := i + |Bracket(m)|;
    assert s == s[..i] + (Bracket(m) + s[j..]);
    hide IsDigit, Scan, End, Bracket, Wedged, IsLabel;
    ScanConcat(IDLE, s[..i], Bracket(m) + s[j..]);
    ScanConcat(End(IDLE, s[..i]), Bracket(m), s[j..]);
    ReadMarker(End(IDLE, s[..i]), m);
  }

  // ---------------------------------------------------------------------------
  // Matching at a position, as the regular expression does
  // ---------------------------------------------------------------------------

  /** The end of the marker that starts at `i`, or `None`. */
  function MarkerEnd(t: string, i: nat): (r: Option<nat>)
    requires i <= |t|
    ensures r.Some? ==>
              && i + 3 < r.value <= |t| && IsLabel(t[i + 1..r.value - 1])
              && t[i..r.value] == Bracket(t[i + 1..r.value - 1])
  {
    if i + 2 <= |t| && t[i] == '[' && t[i + 1] == 'S' then
      var j := DigitsEnd(t, i + 2);
      if j > i + 2 && j < |t| && t[j] == ']' then
        assert t[i + 1..j][1..] == t[i + 2..j];
        Some(j + 1)
      else None
    else None
  }

  lemma {:induction false} NestingIsSilent(st: Pending, st': Pending, s: string)
    requires st.open == st'.open
    ensures Scan(st, s) == Scan(st', s)
    decreases |s|
  {
    hide IsDigit;
    if s != [] { NestingIsSilent(Next(st, s[0]), Next(st', s[0]), s[1..]); }
  }

  /** An open state whose marker is not completed makes no difference to what is found. */
  lemma AbandonedOpening(st: Pending, s: string)
    requires st.open != "" && (s == [] || (!Completes(st, s[0]) && !(st.open == "[" && s[0] == 'S')
             && !(|st.open| >= 2 && IsDigit(s[0]))))
    ensures Scan(st, s) == Scan(IDLE, s)
  {
    if s != [] { NestingIsSilent(Next(st, s[0]), Next(IDLE, s[0]), s[1..]); }
  }

  lemma MarkerOrNot(t: string, i: nat)
    requires i < |t|
    ensures MarkerEnd(t, i).None? ==> MarkersOf(t[i..]) == MarkersOf(t[i + 1..])
    ensures MarkerEnd(t, i).Some? ==>
              var e := MarkerEnd(t, i).value; MarkersOf(t[i..]) == [t[i + 1..e - 1]] + MarkersOf(t[e..])
  {
    hide IsDigit, IsLabel;
    assert t[i..] == [t[i]] + t[i + 1..];
    if MarkerEnd(t, i).Some? {
      var e := MarkerEnd(t, i).value;
      assert t[i..] == t[i..e] + t[e..];
      ScanConcat(IDLE, t[i..e], t[e..]);
      ReadMarker(IDLE, t[i + 1..e - 1]);
    } else if t[i] == '[' {
      var st := Pending("[", false);
      assert Scan(IDLE, t[i..]) == Scan(st, t[i + 1..]);
      if i + 1 < |t| && t[i + 1] == 'S' {
        var j := DigitsEnd(t, i + 2);
        var st2, d := Pending("[S", false), t[i + 2..j];
        assert t[i + 1..] == ['S'] + (d + t[j..]);
        assert Scan(st, t[i + 1..]) == Scan(st2, d + t[j..]) by { assert t[i + 1..][1..] == d + t[j..]; }
        ScanConcat(st2, d, t[j..]);
        ReadDigits(st2, d);
        AbandonedOpening(End(st2, d), t[j..]);
        IdleDigits(d, t[j..]);
        assert !Completes(IDLE, 'S') && Next(IDLE, 'S') == IDLE by { MarkerPunctuation('S'); }
      } else {
        AbandonedOpening(st, t[i + 1..]);
      }
    } else {
      assert Next(IDLE, t[i]) == IDLE;
    }
  }

  lemma IdleDigits(d: string, s: string)
    requires AllDigits(d)
    ensures Scan(IDLE, ['S'] + (d + s)) == Scan(IDLE, s)
  {
    hide IsDigit;
    assert (['S'] + (d + s))[1..] == d + s;
    forall c | c in d ensures c != '[' { MarkerPunctuationDigits(c); }
    NothingOpens(d);
    ScanConcat(IDLE, d, s);
    assert Next(IDLE, 'S') == IDLE;
  }

  lemma {:induction false} NothingOpens(e: string)
    requires '[' !in e
    ensures Scan(IDLE, e) == [] && End(IDLE, e) == IDLE
  {
    hide IsDigit;
    if e != [] {
      assert Next(IDLE, e[0]) == IDLE;
      NothingOpens(e[1..]);
    }
  }

  lemma {:induction false} NothingWedged(e: string)
    requires '[' !in e
    ensures Wedged(IDLE, e) == {}
  {
    hide IsDigit;
    if e != [] {
      assert Next(IDLE, e[0]) == IDLE;
      NothingWedged(e[1..]);
    }
  }

  /** `findall`: the labels of the markers, left to right, searching on after each match. */
  method FindMarkers(t: string) returns (out: seq<string>)
    ensures out == MarkersOf(t)
  {
    hide IsDigit, IsLabel, Scan;
    out := [];
    var i := 0;
    assert t[0..] == t;
    while i < |t|
      invariant i <= |t|
      invariant MarkersOf(t) == out + MarkersOf(t[i..])
      decreases |t| - i
    {
      MarkerOrNot(t, i);
      var m := MarkerEnd(t, i);
      if m.Some? {
        out := out + [t[i + 1..m.value - 1]];
        i := m.value;
      } else {
        i := i + 1;
      }
    }
    ScanNothing();
    assert t[i..] == [] && out + [] == out;
  }

  lemma ScanNothing()
    ensures MarkersOf([]) == []
  {
  }

  // ---------------------------------------------------------------------------
  // Cutting a marker out
  // ---------------------------------------------------------------------------

  /** `str.replace(w, "")`: every occurrence of `w` is cut, from left to right. */
  function Remove(s: string, w: string): string
    decreases |s|
  {
    if s == [] || w == [] then s
    else if w <= s then Remove(s[|w|..], w)
    else [s[0]] + Remove(s[1..], w)
  }

  function Without(ms: seq<string>, m: string): seq<string> {
    if ms == [] then []
    else (if ms[0] == m then [] else [ms[0]]) + Without(ms[1..], m)
  }

  lemma {:induction false} WithoutConcat(a: seq<string>, b: seq<string>, m: string)
    ensures Without(a + b, m) == Without(a, m) + Without(b, m)
  {
    if a == [] {
      assert a + b == b;
    } else {
      assert (a + b)[1..] == a[1..] + b && (a + b)[0] == a[0] && a + b != [];
      WithoutConcat(a[1..], b, m);
    }
  }

  lemma {:induction false} WithoutElements(ms: seq<string>, m: string)
    ensures forall x :: x in Without(ms, m) <==> x in ms && x != m
  {
    if ms != [] { WithoutElements(ms[1..], m); }
  }

  lemma RemoveHere(st: Pending, rest: string, m: string, ok: set<string>)
    requires Sane(st) && IsLabel(m) && st.open == "" && Wedged(st, Bracket(m) + rest) <= ok
    requires Scan(IDLE, Remove(rest, Bracket(m))) == Without(Scan(IDLE, rest), m)
    requires Wedged(IDLE, Remove(rest, Bracket(m))) <= ok
    ensures Scan(st, Remove(rest, Bracket(m))) == Without(Scan(st, Bracket(m) + rest), m)
    ensures Wedged(st, Remove(rest, Bracket(m))) <= ok
  {
    hide IsDigit, IsLabel, Remove, Scan, Wedged, Bracket, Without;
    ScanConcat(st, Bracket(m), rest);
    ReadMarker(st, m);
    ScanIdle(st, Remove(rest, Bracket(m)));
    WithoutConcat([m], Scan(IDLE, rest), m);
    WithoutItself(m);
  }

  lemma WithoutItself(m: string)
    ensures Without([m], m) == []
  {
    assert [m][1..] == [];
  }

  lemma WithoutOther(x: string, m: string)
    requires x != m
    ensures Without([x], m) == [x]
  {
    assert [x][1..] == [];
  }

  lemma ScanStep(st: Pending, c: char, rest: string)
    ensures Scan(st, [c] + rest) == (if Completes(st, c) then [st.open[1..]] else []) + Scan(Next(st, c), rest)
    ensures Wedged(st, [c] + rest) ==
            (if Completes(st, c) && st.nested then {st.open[1..]} else {}) + Wedged(Next(st, c), rest)
  {
    assert ([c] + rest)[1..] == rest;
  }

  /** A marker that is completed is not the one to remove if that one does not begin where it was opened. */
  lemma OtherCompleted(st: Pending, c: char, rest: string, m: string)
    requires Sane(st) && Completes(st, c) && !(Bracket(m) <= st.open + [c] + rest)
    ensures st.open[1..] != m
  {
    hide IsDigit;
    assert st.open + [c] + rest == "[" + st.open[1..] + "]" + rest;
  }

  lemma RemoveThere(st: Pending, c: char, rest: string, m: string, ok: set<string>)
    requires Sane(st) && IsLabel(m) && Wedged(st, [c] + rest) <= ok
    requires st.open != "" ==> !(Bracket(m) <= st.open + ([c] + rest))
    requires Scan(Next(st, c), Remove(rest, Bracket(m))) == Without(Scan(Next(st, c), rest), m)
    requires Wedged(Next(st, c), Remove(rest, Bracket(m))) <= ok
    ensures Scan(st, [c] + Remove(rest, Bracket(m))) == Without(Scan(st, [c] + rest), m)
    ensures Wedged(st, [c] + Remove(rest, Bracket(m))) <= ok
  {
    hide IsDigit, IsLabel, Remove, Scan, Wedged, Bracket, Without, Next;
    ScanStep(st, c, rest);
    ScanStep(st, c, Remove(rest, Bracket(m)));
    if Completes(st, c) {
      assert st.open + ([c] + rest) == st.open + [c] + rest;
      OtherCompleted(st, c, rest, m);
      WithoutConcat([st.open[1..]], Scan(Next(st, c), rest), m);
      WithoutOther(st.open[1..], m);
    } else {
      assert [] + Scan(Next(st, c), rest) == Scan(Next(st, c), rest);
    }
  }

  /**
   * If the marker is nowhere wedged into an open one, cutting it out removes that label and no other, and
   * brings no new marker or wedging about.
   */
  lemma {:induction false} RemoveMarker(st: Pending, s: string, m: string, ok: set<string>)
    requires Sane(st) && IsLabel(m) && m !in ok && Wedged(st, s) <= ok
    requires st.open != "" ==> !(Bracket(m) <= st.open + s)
    ensures Scan(st, Remove(s, Bracket(m))) == Without(Scan(st, s), m)
    ensures Wedged(st, Remove(s, Bracket(m))) <= ok
    decreases |s|
  {
    hide IsDigit, IsLabel, Without;
    var w := Bracket(m);
    if s == [] {
      NothingWithout(m);
    } else if w <= s {
      var rest := s[|w|..];
      assert s == w + rest;
      ScanConcat(st, w, rest);
      ReadMarker(st, m);
      assert m in Wedged(st, w) ==> m in ok;
      assert st.open == "";
      hide Scan, Wedged, Bracket;
      ScanIdle(st, rest);
      RemoveMarker(IDLE, rest, m, ok);
      RemoveHere(st, rest, m, ok);
    } else {
      var c, st' := s[0], Next(st, s[0]);
      assert s == [c] + s[1..];
      hide Scan, Bracket, Next;
      NextSane(st, c);
      NextNotAt(st, s, w);
      RemoveMarker(st', s[1..], m, ok);
      RemoveThere(st, c, s[1..], m, ok);
    }
  }

  lemma NothingWithout(m: string)
    ensures Without([], m) == []
  {
  }

  lemma ScanIdle(st: Pending, s: string)
    requires st.open == ""
    ensures Scan(st, s) == Scan(IDLE, s) && Wedged(st, s) == Wedged(IDLE, s)
  {
    hide IsDigit;
    if s != [] {
      assert Next(st, s[0]) == Next(IDLE, s[0]);
    }
  }

  lemma NextNotAt(st: Pending, s: string, w: string)
    requires s != [] && !(w <= s) && (st.open != "" ==> !(w <= st.open + s))
    ensures Next(st, s[0]).open != "" ==> !(w <= Next(st, s[0]).open + s[1..])
  {
    hide IsDigit;
    var st' := Next(st, s[0]);
    if st'.open == "[" {
      assert st'.open + s[1..] == s;
    } else if st'.open != "" {
      assert st'.open + s[1..] == st.open + s;
    }
  }

  /** The same for whole texts. */
  lemma RemoveFrom(s: string, m: string, ok: set<string>)
    requires IsLabel(m) && m !in ok && Wedged(IDLE, s) <= ok
    ensures MarkersOf(Remove(s, Bracket(m))) == Without(MarkersOf(s), m)
    ensures Wedged(IDLE, Remove(s, Bracket(m))) <= ok
  {
    RemoveMarker(IDLE, s, m, ok);
  }
}
