/** Python's character classes and string operations, on sequences of Unicode characters. */
module Text {
  import opened Wrappers

  // ---------------------------------------------------------------------------
  // Character classes
  // ---------------------------------------------------------------------------

  /** White space as `str.strip` and the regular-expression class `\s` understand it. */
  predicate IsSpace(c: char) {
    var n := c as int;
    9 <= n <= 13 || 28 <= n <= 32 || n in {0x85, 0xA0, 0x1680, 0x2028, 0x2029, 0x202F, 0x205F, 0x3000}
      || 0x2000 <= n <= 0x200A
  }

  /** The characters at which `str.splitlines` breaks a line; each of them is white space. */
  predicate IsBreak(c: char) {
    var n := c as int;
    10 <= n <= 13 || 28 <= n <= 30 || n in {0x85, 0x2028, 0x2029}
  }

  /** The first digit of the block of decimal digits beyond ASCII that holds `n` (Unicode 14). */
  function DigitBlock(n: int): Option<int> {
    if n < 0x660 then None
    else if n <= 0x669 then (if n >= 0x660 then Some(0x660) else None)
    else if n <= 0x6F9 then (if n >= 0x6F0 then Some(0x6F0) else None)
    else if n <= 0x7C9 then (if n >= 0x7C0 then Some(0x7C0) else None)
    else if n <= 0x96F then (if n >= 0x966 then Some(0x966) else None)
    else if n <= 0x9EF then (if n >= 0x9E6 then Some(0x9E6) else None)
    else if n <= 0xA6F then (if n >= 0xA66 then Some(0xA66) else None)
    else if n <= 0xAEF then (if n >= 0xAE6 then Some(0xAE6) else None)
    else if n <= 0xB6F then (if n >= 0xB66 then Some(0xB66) else None)
    else if n <= 0xBEF then (if n >= 0xBE6 then Some(0xBE6) else None)
    else if n <= 0xC6F then (if n >= 0xC66 then Some(0xC66) else None)
    else if n <= 0xCEF then (if n >= 0xCE6 then Some(0xCE6) else None)
    else if n <= 0xD6F then (if n >= 0xD66 then Some(0xD66) else None)
    else if n <= 0xDEF then (if n >= 0xDE6 then Some(0xDE6) else None)
    else if n <= 0xE59 then (if n >= 0xE50 then Some(0xE50) else None)
    else if n <= 0xED9 then (if n >= 0xED0 then Some(0xED0) else None)
    else if n <= 0xF29 then (if n >= 0xF20 then Some(0xF20) else None)
    else if n <= 0x1049 then (if n >= 0x1040 then Some(0x1040) else None)
    else if n <= 0x1099 then (if n >= 0x1090 then Some(0x1090) else None)
    else if n <= 0x17E9 then (if n >= 0x17E0 then Some(0x17E0) else None)
    else if n <= 0x1819 then (if n >= 0x1810 then Some(0x1810) else None)
    else if n <= 0x194F then (if n >= 0x1946 then Some(0x1946) else None)
    else if n <= 0x19D9 then (if n >= 0x19D0 then Some(0x19D0) else None)
    else if n <= 0x1A89 then (if n >= 0x1A80 then Some(0x1A80) else None)
    else if n <= 0x1A99 then (if n >= 0x1A90 then Some(0x1A90) else None)
    else if n <= 0x1B59 then (if n >= 0x1B50 then Some(0x1B50) else None)
    else if n <= 0x1BB9 then (if n >= 0x1BB0 then Some(0x1BB0) else None)
    else if n <= 0x1C49 then (if n >= 0x1C40 then Some(0x1C40) else None)
    else if n <= 0x1C59 then (if n >= 0x1C50 then Some(0x1C50) else None)
    else if n <= 0xA629 then (if n >= 0xA620 then Some(0xA620) else None)
    else if n <= 0xA8D9 then (if n >= 0xA8D0 then Some(0xA8D0) else None)
    else if n <= 0xA909 then (if n >= 0xA900 then Some(0xA900) else None)
    else if n <= 0xA9D9 then (if n >= 0xA9D0 then Some(0xA9D0) else None)
    else if n <= 0xA9F9 then (if n >= 0xA9F0 then Some(0xA9F0) else None)
    else if n <= 0xAA59 then (if n >= 0xAA50 then Some(0xAA50) else None)
    else if n <= 0xABF9 then (if n >= 0xABF0 then Some(0xABF0) else None)
    else if n <= 0xFF19 then (if n >= 0xFF10 then Some(0xFF10) else None)
    else if n <= 0x104A9 then (if n >= 0x104A0 then Some(0x104A0) else None)
    else if n <= 0x10D39 then (if n >= 0x10D30 then Some(0x10D30) else None)
    else if n <= 0x1106F then (if n >= 0x11066 then Some(0x11066) else None)
    else if n <= 0x110F9 then (if n >= 0x110F0 then Some(0x110F0) else None)
    else if n <= 0x1113F then (if n >= 0x11136 then Some(0x11136) else None)
    else if n <= 0x111D9 then (if n >= 0x111D0 then Some(0x111D0) else None)
    else if n <= 0x112F9 then (if n >= 0x112F0 then Some(0x112F0) else None)
    else if n <= 0x11459 then (if n >= 0x11450 then Some(0x11450) else None)
    else if n <= 0x114D9 then (if n >= 0x114D0 then Some(0x114D0) else None)
    else if n <= 0x11659 then (if n >= 0x11650 then Some(0x11650) else None)
    else if n <= 0x116C9 then (if n >= 0x116C0 then Some(0x116C0) else None)
    else if n <= 0x11739 then (if n >= 0x11730 then Some(0x11730) else None)
    else if n <= 0x118E9 then (if n >= 0x118E0 then Some(0x118E0) else None)
    else if n <= 0x11959 then (if n >= 0x11950 then Some(0x11950) else None)
    else if n <= 0x11C59 then (if n >= 0x11C50 then Some(0x11C50) else None)
    else if n <= 0x11D59 then (if n >= 0x11D50 then Some(0x11D50) else None)
    else if n <= 0x11DA9 then (if n >= 0x11DA0 then Some(0x11DA0) else None)
    else if n <= 0x16A69 then (if n >= 0x16A60 then Some(0x16A60) else None)
    else if n <= 0x16AC9 then (if n >= 0x16AC0 then Some(0x16AC0) else None)
    else if n <= 0x16B59 then (if n >= 0x16B50 then Some(0x16B50) else None)
    else if n <= 0x1D7FF then (if n >= 0x1D7CE then Some(0x1D7CE) else None)
    else if n <= 0x1E149 then (if n >= 0x1E140 then Some(0x1E140) else None)
    else if n <= 0x1E2F9 then (if n >= 0x1E2F0 then Some(0x1E2F0) else None)
    else if n <= 0x1E959 then (if n >= 0x1E950 then Some(0x1E950) else None)
    else if n <= 0x1FBF9 then (if n >= 0x1FBF0 then Some(0x1FBF0) else None)
    else None
  }

  /** Decimal digits of every script, as the class `\d` and `int()` understand them. */
  predicate IsDigit(c: char) {
    '0' <= c <= '9' || DigitBlock(c as int).Some?
  }

  function DigitValue(c: char): nat
    requires IsDigit(c)
  {
    if c <= '9' then c as int - '0' as int
    else (c as int - DigitBlock(c as int).value) % 10
  }

  lemma BreaksAreSpaces(c: char)
    ensures IsBreak(c) ==> IsSpace(c)
  {
  }

  lemma DigitsAreNotSpaces(c: char)
    ensures IsDigit(c) ==> !IsSpace(c) && !IsBreak(c)
  {
  }

  /** None of the punctuation a marker is made of is white space or a digit. */
  lemma MarkerPunctuation(c: char)
    requires c in "[]S"
    ensures !IsSpace(c) && !IsBreak(c) && !IsDigit(c)
  {
  }

  // ---------------------------------------------------------------------------
  // Strip
  // ---------------------------------------------------------------------------

  function LStrip(s: string): string {
    if s != [] && IsSpace(s[0]) then LStrip(s[1..]) else s
  }

  function RStrip(s: string): string {
    if s != [] && IsSpace(s[|s| - 1]) then RStrip(s[..|s| - 1]) else s
  }

  function Strip(s: string): string {
    RStrip(LStrip(s))
  }

  ghost predicate AllSpaces(s: string) {
    forall i | 0 <= i < |s| :: IsSpace(s[i])
  }

  ghost predicate IsStripped(s: string) {
    s != [] ==> !IsSpace(s[0]) && !IsSpace(s[|s| - 1])
  }

  lemma {:induction false} LStripCuts(s: string) returns (a: string)
    ensures s == a + LStrip(s) && AllSpaces(a)
    ensures LStrip(s) != [] ==> !IsSpace(LStrip(s)[0])
  {
    hide IsSpace;
    if s != [] && IsSpace(s[0]) {
      var a' := LStripCuts(s[1..]);
      a := [s[0]] + a';
    } else {
      a := [];
    }
  }

  lemma {:induction false} RStripCuts(s: string) returns (b: string)
    ensures s == RStrip(s) + b && AllSpaces(b)
    ensures RStrip(s) != [] ==> !IsSpace(RStrip(s)[|RStrip(s)| - 1]) && RStrip(s)[0] == s[0]
  {
    hide IsSpace;
    if s != [] && IsSpace(s[|s| - 1]) {
      var n := |s| - 1;
      var b' := RStripCuts(s[..n]);
      b := b' + [s[n]];
    } else {
      b := [];
    }
  }

  /** Stripping cuts white space off both ends, and all of it. */
  lemma StripCuts(s: string) returns (a: string, b: string)
    ensures s == a + Strip(s) + b && AllSpaces(a) && AllSpaces(b) && IsStripped(Strip(s))
  {
    hide IsSpace;
    a := LStripCuts(s);
    b := RStripCuts(LStrip(s));
  }

  lemma StripIsStripped(s: string)
    ensures IsStripped(Strip(s))
  {
    var a, b := StripCuts(s);
  }

  lemma StripKeepsStripped(s: string)
    requires IsStripped(s)
    ensures Strip(s) == s
  {
    hide IsSpace;
  }

  lemma {:induction false} StripDropsSpaces(a: string, s: string, b: string)
    requires AllSpaces(a) && AllSpaces(b) && IsStripped(s) && s != []
    ensures Strip(a + s + b) == s
    decreases |a| + |b|
  {
    hide IsSpace;
    if a != [] {
      assert (a + s + b)[1..] == a[1..] + s + b;
      StripDropsSpaces(a[1..], s, b);
    } else if b != [] {
      var n := |s + b| - 1;
      assert a + s + b == s + b;
      assert (s + b)[..n] == s + b[..|b| - 1];
      StripDropsSpaces(a, s, b[..|b| - 1]);
      assert a + s + b[..|b| - 1] == s + b[..|b| - 1];
      assert LStrip(s + b) == s + b && LStrip(s + b[..|b| - 1]) == s + b[..|b| - 1];
    } else {
      assert a + s + b == s;
    }
  }

  // ---------------------------------------------------------------------------
  // Reading on from a position
  // ---------------------------------------------------------------------------

  function SkipSpaces(t: string, i: nat): (j: nat)
    requires i <= |t|
    ensures i <= j <= |t| && AllSpaces(t[i..j])
    ensures j < |t| ==> !IsSpace(t[j])
    decreases |t| - i
  {
    if i < |t| && IsSpace(t[i]) then
      var j := SkipSpaces(t, i + 1);
      assert t[i..j] == [t[i]] + t[i + 1..j];
      j
    else i
  }

  predicate AllDigits(s: string) {
    forall c | c in s :: IsDigit(c)
  }

  function DigitsEnd(t: string, i: nat): (j: nat)
    requires i <= |t|
    ensures i <= j <= |t| && AllDigits(t[i..j])
    ensures j < |t| ==> !IsDigit(t[j])
    decreases |t| - i
  {
    if i < |t| && IsDigit(t[i]) then
      var j := DigitsEnd(t, i + 1);
      assert t[i..j] == [t[i]] + t[i + 1..j];
      j
    else i
  }

  /**
   * ASCII lower case. For the fixed words of the source this decides as `str.lower` does: no other letter
   * lowers to one of theirs alone.
   */
  function Lower(c: char): char {
    if 'A' <= c <= 'Z' then (c as int + 32) as char else c
  }

  function Lowered(s: string): string {
    seq(|s|, i requires 0 <= i < |s| => Lower(s[i]))
  }

  /** Letters, digits and the underscore; letters beyond ASCII are not told apart here. */
  predicate IsWord(c: char) {
    'a' <= c <= 'z' || 'A' <= c <= 'Z' || c == '_' || IsDigit(c)
  }

  predicate FoldsAt(t: string, i: nat, w: string) {
    i + |w| <= |t| && forall k | 0 <= k < |w| :: Lower(t[i + k]) == w[k]
  }

  /** A whole word, upper or lower case, at `i`. */
  predicate WordAt(t: string, i: nat, w: string) {
    FoldsAt(t, i, w) && (i + |w| == |t| || !IsWord(t[i + |w|]))
  }

  predicate FoldsSomewhere(t: string, i: nat, w: string)
    decreases |t| - i
  {
    FoldsAt(t, i, w) || (i < |t| && FoldsSomewhere(t, i + 1, w))
  }

  predicate Occurs(s: string, i: nat, w: string) {
    i + |w| <= |s| && s[i..i + |w|] == w
  }

  ghost predicate Contains(s: string, w: string) {
    exists i: nat :: Occurs(s, i, w)
  }

  /** A number as `str` prints it. */
  function Decimal(n: nat): string {
    if n < 10 then [('0' as int + n) as char] else Decimal(n / 10) + [('0' as int + n % 10) as char]
  }

  // ---------------------------------------------------------------------------
  // Join and splitlines
  // ---------------------------------------------------------------------------

  function Join(sep: string, parts: seq<string>): string {
    if parts == [] then []
    else if |parts| == 1 then parts[0]
    else parts[0] + sep + Join(sep, parts[1..])
  }

  lemma {:induction false} JoinSnoc(sep: string, parts: seq<string>, x: string)
    ensures Join(sep, parts + [x]) == if parts == [] then x else Join(sep, parts) + sep + x
  {
    if |parts| <= 1 {
      if |parts| == 1 { assert (parts + [x])[1..] == [x]; }
    } else {
      JoinSnoc(sep, parts[1..], x);
      assert (parts + [x])[1..] == parts[1..] + [x];
      assert parts[0] + sep + (Join(sep, parts[1..]) + sep + x) == parts[0] + sep + Join(sep, parts[1..]) + sep + x;
    }
  }

  function LineEnd(s: string): (n: nat)
    ensures n <= |s|
    ensures n < |s| ==> IsBreak(s[n])
    ensures forall i | 0 <= i < n :: !IsBreak(s[i])
  {
    if s == [] || IsBreak(s[0]) then 0 else 1 + LineEnd(s[1..])
  }

  /** The pieces between line breaks; "\r\n" is one break, and a final break opens no further line. */
  function SplitLines(s: string): seq<string>
    decreases |s|
  {
    if s == [] then []
    else
      var n := LineEnd(s);
      if n == |s| then [s]
      else
        var skip := if s[n] == '\r' && n + 1 < |s| && s[n + 1] == '\n' then 2 else 1;
        [s[..n]] + SplitLines(s[n + skip..])
  }

  ghost predicate OneLine(s: string) {
    forall i | 0 <= i < |s| :: !IsBreak(s[i])
  }

  lemma {:induction false} LineEndOf(a: string, b: string)
    requires OneLine(a) && (b == [] || IsBreak(b[0]))
    ensures LineEnd(a + b) == |a|
  {
    hide IsBreak;
    if a == [] {
      assert a + b == b;
    } else {
      LineEndOf(a[1..], b);
      assert (a + b)[1..] == a[1..] + b;
    }
  }

  lemma NewlineBreaks()
    ensures IsBreak('\n') && IsSpace('\n')
  {
  }

  lemma SplitFirst(a: string, rest: string)
    requires OneLine(a)
    ensures SplitLines(a + "\n" + rest) == [a] + SplitLines(rest)
  {
    NewlineBreaks();
    hide IsBreak;
    var s := a + "\n" + rest;
    assert s == a + ("\n" + rest);
    LineEndOf(a, "\n" + rest);
    assert s[..|a|] == a && s[|a| + 1..] == rest;
  }

  /** Splitting undoes joining, as long as no line holds a break and the last one is not empty. */
  lemma {:induction false} SplitJoined(lines: seq<string>)
    requires lines != [] && lines[|lines| - 1] != [] && forall l | l in lines :: OneLine(l)
    ensures SplitLines(Join("\n", lines)) == lines
  {
    hide IsBreak;
    if |lines| == 1 {
      assert LineEnd(lines[0]) == |lines[0]| by {
        LineEndOf(lines[0], []);
        assert lines[0] + [] == lines[0];
      }
    } else {
      SplitJoined(lines[1..]);
      SplitFirst(lines[0], Join("\n", lines[1..]));
    }
  }
}
