/** One left-to-right sweep that settles overlaps in favour of the longer span. */
module SpanSweep {
  import opened StableSort

  datatype Range = Range(start: int, end: int, rank: nat) {
    function Len(): int { end - start }
  }

  predicate Overlap(a: Range, b: Range) {
    a.start < b.end && b.start < a.end
  }

  /** By start; then the longer first; then the higher rank first. */
  predicate Earlier(a: Range, b: Range) {
    a.start < b.start
    || (a.start == b.start && (a.Len() > b.Len() || (a.Len() == b.Len() && a.rank >= b.rank)))
  }

  /** When a later span takes the place of the last one kept; `byRank` says whether rank settles equal lengths. */
  predicate Beats(c: Range, prev: Range, byRank: bool) {
    c.Len() > prev.Len() || (byRank && c.Len() == prev.Len() && c.rank > prev.rank)
  }

  function InOrder<T>(at: T -> Range): (T, T) -> bool {
    (a: T, b: T) => Earlier(at(a), at(b))
  }

  function Step<T>(out: seq<T>, c: T, at: T -> Range, byRank: bool): seq<T> {
    if out != [] && at(c).start < at(out[|out| - 1]).end then
      if Beats(at(c), at(out[|out| - 1]), byRank) then out[..|out| - 1] + [c] else out
    else out + [c]
  }

  function Swept<T>(items: seq<T>, at: T -> Range, byRank: bool): seq<T> {
    if items == [] then [] else Step(Swept(items[..|items| - 1], at, byRank), items[|items| - 1], at, byRank)
  }

  function Sweep<T>(items: seq<T>, at: T -> Range, byRank: bool): seq<T> {
    Swept(Sort(items, InOrder(at)), at, byRank)
  }

  method SweepSpans<T>(items: seq<T>, at: T -> Range, byRank: bool) returns (out: seq<T>)
    ensures out == Sweep(items, at, byRank)
  {
    hide Beats, Earlier;
    var sorted := Sort(items, InOrder(at));
    out := [];
    for i := 0 to |sorted|
      invariant out == Swept(sorted[..i], at, byRank)
    {
      assert sorted[..i + 1][..i] == sorted[..i];
      var c := sorted[i];
      if out != [] && at(c).start < at(out[|out| - 1]).end {
        if Beats(at(c), at(out[|out| - 1]), byRank) { out := out[..|out| - 1] + [c]; }
        continue;
      }
      out := out + [c];
    }
    assert sorted[..|sorted|] == sorted;
  }

  // ---------------------------------------------------------------------------
  // What is kept
  // ---------------------------------------------------------------------------

  ghost predicate AllPositive<T>(items: seq<T>, at: T -> Range) {
    forall i | 0 <= i < |items| :: at(items[i]).start < at(items[i]).end
  }

  ghost predicate ByStart<T>(items: seq<T>, at: T -> Range) {
    forall i, j | 0 <= i < j < |items| :: at(items[i]).start <= at(items[j]).start
  }

  /** Each ends before the next begins. */
  ghost predicate Apart<T>(out: seq<T>, at: T -> Range) {
    forall i, j | 0 <= i < j < |out| :: at(out[i]).end <= at(out[j]).start
  }

  lemma SortedByStart<T(!new)>(items: seq<T>, at: T -> Range)
    requires AllPositive(items, at)
    ensures ByStart(Sort(items, InOrder(at)), at) && AllPositive(Sort(items, InOrder(at)), at)
  {
    var le := InOrder(at);
    assert TotalPreorder(le, items);
    SortOrdered(items, le);
    SortElements(items, le);
    var s := Sort(items, le);
    forall i, j | 0 <= i < j < |s| ensures at(s[i]).start <= at(s[j]).start {
      assert le(s[i], s[j]);
    }
    forall i | 0 <= i < |s| ensures at(s[i]).start < at(s[i]).end {
      assert s[i] in items;
      var k :| 0 <= k < |items| && items[k] == s[i];
    }
  }

  lemma StepKeepsApart<T>(out: seq<T>, c: T, at: T -> Range, byRank: bool)
    requires Apart(out, at) && AllPositive(out, at) && at(c).start < at(c).end
    requires forall i | 0 <= i < |out| :: at(out[i]).start <= at(c).start
    ensures var r := Step(out, c, at, byRank);
            Apart(r, at) && AllPositive(r, at) && forall i | 0 <= i < |r| :: at(r[i]).start <= at(c).start
  {
    hide Beats;
  }

  lemma {:induction false} SweptApart<T>(s: seq<T>, at: T -> Range, byRank: bool, last: int)
    requires ByStart(s, at) && AllPositive(s, at) && forall i | 0 <= i < |s| :: at(s[i]).start <= last
    ensures var r := Swept(s, at, byRank);
            Apart(r, at) && AllPositive(r, at) && forall i | 0 <= i < |r| :: at(r[i]).start <= last
  {
    hide Step;
    if s != [] {
      var n := |s| - 1;
      SweptApart(s[..n], at, byRank, at(s[n]).start);
      StepKeepsApart(Swept(s[..n], at, byRank), s[n], at, byRank);
    }
  }

  lemma StepTakes<T>(out: seq<T>, c: T, at: T -> Range, byRank: bool)
    ensures multiset(Step(out, c, at, byRank)) <= multiset(out) + multiset{c}
  {
    hide Beats;
    if out != [] {
      assert out == out[..|out| - 1] + [out[|out| - 1]];
    }
  }

  lemma {:induction false} SweptTakes<T>(s: seq<T>, at: T -> Range, byRank: bool)
    ensures multiset(Swept(s, at, byRank)) <= multiset(s)
  {
    hide Step;
    if s != [] {
      var n := |s| - 1;
      SweptTakes(s[..n], at, byRank);
      StepTakes(Swept(s[..n], at, byRank), s[n], at, byRank);
      assert s == s[..n] + [s[n]];
    }
  }

  /** The sweep keeps some of its items, in order of position, no two of them overlapping. */
  lemma SweepIsApart<T(!new)>(items: seq<T>, at: T -> Range, byRank: bool)
    requires AllPositive(items, at)
    ensures var out := Sweep(items, at, byRank);
            Apart(out, at) && AllPositive(out, at) && multiset(out) <= multiset(items)
  {
    hide Earlier, Swept, Sort;
    var s := Sort(items, InOrder(at));
    SortedByStart(items, at);
    SortPermutes(items, InOrder(at));
    SweptTakes(s, at, byRank);
    if s == [] { SweptApart(s, at, byRank, 0); } else { SweptApart(s, at, byRank, at(s[|s| - 1]).start); }
  }

  lemma {:induction false} SweptFixed<T>(s: seq<T>, at: T -> Range, byRank: bool)
    requires Apart(s, at)
    ensures Swept(s, at, byRank) == s
  {
    if s != [] {
      var n := |s| - 1;
      SweptFixed(s[..n], at, byRank);
      assert s == s[..n] + [s[n]];
    }
  }

  /** Sweeping again changes nothing. */
  lemma SweepIsIdempotent<T(!new)>(items: seq<T>, at: T -> Range, byRank: bool)
    requires AllPositive(items, at)
    ensures Sweep(Sweep(items, at, byRank), at, byRank) == Sweep(items, at, byRank)
  {
    var out := Sweep(items, at, byRank);
    SweepIsApart(items, at, byRank);
    hide Sweep, Swept, Sort;
    var le := InOrder(at);
    forall i, j | 0 <= i < j < |out| ensures le(out[i], out[j]) {
      assert at(out[i]).end <= at(out[j]).start;
    }
    SortFixed(out, le);
    SweptFixed(out, at, byRank);
    SweepIs(out, at, byRank);
  }

  lemma SweepIs<T>(items: seq<T>, at: T -> Range, byRank: bool)
    ensures Sweep(items, at, byRank) == Swept(Sort(items, InOrder(at)), at, byRank)
  {
  }

  // --- nothing longer is lost -------------------------------------------------

  /** Strictly longer than everything it overlaps. */
  ghost predicate Dominant<T>(items: seq<T>, c: T, at: T -> Range) {
    forall i | 0 <= i < |items| && Overlap(at(c), at(items[i])) :: items[i] == c || at(items[i]).Len() < at(c).Len()
  }

  lemma StepKeepsDominant<T>(out: seq<T>, c: T, at: T -> Range, byRank: bool, d: T)
    requires at(c).start < at(c).end && at(d).start < at(d).end
    requires out != [] ==> at(out[|out| - 1]).start <= at(c).start
    requires Overlap(at(d), at(c)) ==> c == d || at(c).Len() < at(d).Len()
    requires d in out || c == d
    requires out != [] && c == d && Overlap(at(d), at(out[|out| - 1])) ==>
               out[|out| - 1] == d || at(out[|out| - 1]).Len() < at(d).Len()
    ensures d in Step(out, c, at, byRank)
  {
    if out != [] {
      var n := |out| - 1;
      assert out == out[..n] + [out[n]];
      var r := Step(out, c, at, byRank);
      assert c == d && r != out ==> r[|r| - 1] == d;
      if d in out[..n] { assert d in r; }
    } else {
      assert Step(out, c, at, byRank) == [c];
    }
  }

  lemma SweptFrom<T>(s: seq<T>, at: T -> Range, byRank: bool, x: T)
    requires x in Swept(s, at, byRank)
    ensures x in s
  {
    hide Swept;
    SweptTakes(s, at, byRank);
    assert x in multiset(Swept(s, at, byRank));
    assert x in multiset(s);
  }

  lemma {:induction false} SweptKeepsDominant<T>(s: seq<T>, at: T -> Range, byRank: bool, d: T)
    requires ByStart(s, at) && AllPositive(s, at) && d in s && Dominant(s, d, at)
    ensures d in Swept(s, at, byRank)
  {
    hide Overlap, Step;
    var n := |s| - 1;
    var out := Swept(s[..n], at, byRank);
    assert s == s[..n] + [s[n]];
    if d != s[n] { SweptKeepsDominant(s[..n], at, byRank, d); }
    if out != [] {
      var last := out[|out| - 1];
      assert last in out;
      SweptFrom(s[..n], at, byRank, last);
      var k :| 0 <= k < n && s[k] == last;
    }
    var i :| 0 <= i < |s| && s[i] == d;
    StepKeepsDominant(out, s[n], at, byRank, d);
  }

  /** A span strictly longer than everything it overlaps is always kept. */
  lemma DominantIsKept<T(!new)>(items: seq<T>, at: T -> Range, byRank: bool, d: T)
    requires AllPositive(items, at) && d in items && Dominant(items, d, at)
    ensures d in Sweep(items, at, byRank)
  {
    hide Earlier, Swept, Sort, Overlap;
    var s := Sort(items, InOrder(at));
    SortedByStart(items, at);
    SortElements(items, InOrder(at));
    forall i | 0 <= i < |s| && Overlap(at(d), at(s[i])) ensures s[i] == d || at(s[i]).Len() < at(d).Len() {
      assert s[i] in items;
      var k :| 0 <= k < |items| && items[k] == s[i];
    }
    SweptKeepsDominant(s, at, byRank, d);
  }

  /** Items, each overlapping the next, none shorter than the one before. */
  ghost predicate Chain<T>(path: seq<T>, items: seq<T>, at: T -> Range) {
    && path != [] && (forall k | 0 <= k < |path| :: path[k] in items)
    && forall k | 0 < k < |path| :: Overlap(at(path[k - 1]), at(path[k])) && at(path[k - 1]).Len() <= at(path[k]).Len()
  }

  ghost predicate LeadsTo<T(!new)>(d: T, k: T, items: seq<T>, at: T -> Range) {
    exists path: seq<T> :: Chain(path, items, at) && path[0] == d && path[|path| - 1] == k
  }

  lemma ChainGrows<T(!new)>(d: T, k: T, c: T, older: seq<T>, items: seq<T>, at: T -> Range)
    requires LeadsTo(d, k, older, at) && items == older + [c]
    requires Overlap(at(k), at(c)) && at(k).Len() <= at(c).Len()
    ensures LeadsTo(d, c, items, at)
  {
    hide Overlap;
    var path :| Chain(path, older, at) && path[0] == d && path[|path| - 1] == k;
    assert Chain(path + [c], items, at);
    assert (path + [c])[0] == d && (path + [c])[|path|] == c;
  }

  lemma ChainStays<T(!new)>(d: T, k: T, c: T, older: seq<T>, items: seq<T>, at: T -> Range)
    requires LeadsTo(d, k, older, at) && items == older + [c]
    ensures LeadsTo(d, k, items, at)
  {
    hide Overlap;
    var path :| Chain(path, older, at) && path[0] == d && path[|path| - 1] == k;
    assert Chain(path, items, at);
  }

  lemma ChainStarts<T(!new)>(d: T, items: seq<T>, at: T -> Range)
    requires d in items
    ensures LeadsTo(d, d, items, at)
  {
    assert Chain([d], items, at) && [d][0] == d;
  }

  ghost predicate Led<T(!new)>(d: T, out: seq<T>, items: seq<T>, at: T -> Range) {
    exists k | 0 <= k < |out| :: LeadsTo(d, out[k], items, at)
  }

  lemma StepLeads<T(!new)>(d: T, out: seq<T>, c: T, older: seq<T>, items: seq<T>, at: T -> Range, byRank: bool)
    requires items == older + [c] && Led(d, out, older, at)
    requires at(c).start < at(c).end && (out != [] ==> at(out[|out| - 1]).start <= at(c).start)
    ensures Led(d, Step(out, c, at, byRank), items, at)
  {
    hide LeadsTo;
    var k :| 0 <= k < |out| && LeadsTo(d, out[k], older, at);
    var r := Step(out, c, at, byRank);
    if k == |out| - 1 && r != out && |r| == |out| {
      ChainGrows(d, out[k], c, older, items, at);
      assert r[k] == c;
    } else {
      ChainStays(d, out[k], c, older, items, at);
      assert r[k] == out[k];
    }
  }

  lemma NewLeads<T(!new)>(out: seq<T>, c: T, older: seq<T>, items: seq<T>, at: T -> Range, byRank: bool)
    requires items == older + [c] && at(c).start < at(c).end
    requires forall k | 0 <= k < |out| :: out[k] in older
    requires out != [] ==> at(out[|out| - 1]).start <= at(c).start
    ensures Led(c, Step(out, c, at, byRank), items, at)
  {
    hide LeadsTo;
    var r := Step(out, c, at, byRank);
    ChainStarts(c, items, at);
    if r == out && out != [] {
      var last := out[|out| - 1];
      ChainPair(c, last, items, at);
      assert LeadsTo(c, r[|r| - 1], items, at);
    } else {
      assert r[|r| - 1] == c;
    }
  }

  lemma ChainPair<T(!new)>(c: T, k: T, items: seq<T>, at: T -> Range)
    requires c in items && k in items && Overlap(at(c), at(k)) && at(c).Len() <= at(k).Len()
    ensures LeadsTo(c, k, items, at)
  {
    hide Overlap;
    assert Chain([c, k], items, at) && [c, k][0] == c && [c, k][1] == k;
  }

  lemma {:induction false} SweptLeads<T(!new)>(s: seq<T>, at: T -> Range, byRank: bool, d: T)
    requires ByStart(s, at) && AllPositive(s, at) && d in s
    ensures Led(d, Swept(s, at, byRank), s, at)
    decreases |s|
  {
    hide Led, Step;
    var n := |s| - 1;
    var out := Swept(s[..n], at, byRank);
    assert s == s[..n] + [s[n]];
    forall k | 0 <= k < |out| ensures out[k] in s[..n] {
      SweptFrom(s[..n], at, byRank, out[k]);
    }
    if out != [] {
      var k :| 0 <= k < n && s[k] == out[|out| - 1];
    }
    if d in s[..n] {
      SweptLeads(s[..n], at, byRank, d);
      StepLeads(d, out, s[n], s[..n], s, at, byRank);
    } else {
      NewLeads(out, s[n], s[..n], s, at, byRank);
    }
  }

  /**
   * From every item, kept or dropped, a chain of overlapping items that never get shorter leads to one that is
   * kept.
   */
  lemma DroppedForLonger<T(!new)>(items: seq<T>, at: T -> Range, byRank: bool, d: T)
    requires AllPositive(items, at) && d in items
    ensures Led(d, Sweep(items, at, byRank), items, at)
  {
    hide Earlier, Swept, Sort, Overlap;
    var s := Sort(items, InOrder(at));
    SortedByStart(items, at);
    SortElements(items, InOrder(at));
    SweptLeads(s, at, byRank, d);
    var out := Sweep(items, at, byRank);
    var k :| 0 <= k < |out| && LeadsTo(d, out[k], s, at);
    var path :| Chain(path, s, at) && path[0] == d && path[|path| - 1] == out[k];
    assert Chain(path, items, at);
  }

  // --- ties at different places -------------------------------------------------

  /** Nothing that overlaps it is longer, and what is as long starts later. */
  ghost predicate FirstOfTies<T>(items: seq<T>, d: T, at: T -> Range) {
    forall i | 0 <= i < |items| && Overlap(at(d), at(items[i])) ::
      || items[i] == d || at(items[i]).Len() < at(d).Len()
      || (at(items[i]).Len() == at(d).Len() && at(d).start < at(items[i]).start)
  }

  lemma StepKeepsFirst<T>(out: seq<T>, c: T, at: T -> Range, d: T)
    requires at(c).start < at(c).end && at(d).start < at(d).end
    requires out != [] ==> at(out[|out| - 1]).start <= at(c).start
    requires Overlap(at(d), at(c)) ==> c == d || at(c).Len() <= at(d).Len()
    requires d in out || c == d
    requires out != [] && c == d && Overlap(at(d), at(out[|out| - 1])) ==>
               out[|out| - 1] == d || at(out[|out| - 1]).Len() < at(d).Len()
    ensures d in Step(out, c, at, false)
  {
    if out != [] {
      var n := |out| - 1;
      assert out == out[..n] + [out[n]];
      var r := Step(out, c, at, false);
      assert c == d && r != out ==> r[|r| - 1] == d;
      if d in out[..n] { assert d in r; }
    } else {
      assert Step(out, c, at, false) == [c];
    }
  }

  lemma {:induction false} SweptKeepsFirst<T>(s: seq<T>, at: T -> Range, d: T)
    requires ByStart(s, at) && AllPositive(s, at) && d in s && FirstOfTies(s, d, at)
    ensures d in Swept(s, at, false)
  {
    hide Overlap, Step;
    var n := |s| - 1;
    var out := Swept(s[..n], at, false);
    assert s == s[..n] + [s[n]];
    if d != s[n] { SweptKeepsFirst(s[..n], at, d); }
    if out != [] {
      var last := out[|out| - 1];
      assert last in out;
      SweptFrom(s[..n], at, false, last);
      var k :| 0 <= k < n && s[k] == last;
    }
    var i :| 0 <= i < |s| && s[i] == d;
    StepKeepsFirst(out, s[n], at, d);
  }

  /** Where rank does not count, the first of several equally long spans is kept if nothing longer is near. */
  lemma FirstOfTiesIsKept<T(!new)>(items: seq<T>, at: T -> Range, d: T)
    requires AllPositive(items, at) && d in items && FirstOfTies(items, d, at)
    ensures d in Sweep(items, at, false)
  {
    hide Earlier, Swept, Sort, Overlap;
    var s := Sort(items, InOrder(at));
    SortedByStart(items, at);
    SortElements(items, InOrder(at));
    forall i | 0 <= i < |s| && Overlap(at(d), at(s[i])) ensures
      || s[i] == d || at(s[i]).Len() < at(d).Len()
      || (at(s[i]).Len() == at(d).Len() && at(d).start < at(s[i]).start)
    {
      assert s[i] in items;
      var k :| 0 <= k < |items| && items[k] == s[i];
    }
    SweptKeepsFirst(s, at, d);
  }

  /** Nothing that overlaps it is longer, and what is as long has a lower rank, or the same and starts later. */
  ghost predicate RichestOfTies<T>(items: seq<T>, d: T, at: T -> Range) {
    forall i | 0 <= i < |items| && Overlap(at(d), at(items[i])) ::
      || items[i] == d || at(items[i]).Len() < at(d).Len()
      || (at(items[i]).Len() == at(d).Len() && at(items[i]).rank < at(d).rank)
      || (at(items[i]).Len() == at(d).Len() && at(items[i]).rank == at(d).rank && at(d).start < at(items[i]).start)
  }

  predicate Poorer(a: Range, d: Range) {
    || a.Len() < d.Len() || (a.Len() == d.Len() && a.rank < d.rank)
    || (a.Len() == d.Len() && a.rank == d.rank && d.start < a.start)
  }

  lemma StepKeepsRichest<T>(out: seq<T>, c: T, at: T -> Range, d: T)
    requires at(c).start < at(c).end && at(d).start < at(d).end
    requires out != [] ==> at(out[|out| - 1]).start <= at(c).start
    requires Overlap(at(d), at(c)) ==> c == d || Poorer(at(c), at(d))
    requires d in out || c == d
    requires out != [] && c == d && Overlap(at(d), at(out[|out| - 1])) ==>
               out[|out| - 1] == d || Poorer(at(out[|out| - 1]), at(d))
    ensures d in Step(out, c, at, true)
  {
    if out != [] {
      var n := |out| - 1;
      assert out == out[..n] + [out[n]];
      var r := Step(out, c, at, true);
      assert c == d && r != out ==> r[|r| - 1] == d;
      if d in out[..n] { assert d in r; }
    } else {
      assert Step(out, c, at, true) == [c];
    }
  }

  lemma {:induction false} SweptKeepsRichest<T>(s: seq<T>, at: T -> Range, d: T)
    requires ByStart(s, at) && AllPositive(s, at) && d in s && RichestOfTies(s, d, at)
    ensures d in Swept(s, at, true)
  {
    hide Overlap, Step;
    var n := |s| - 1;
    var out := Swept(s[..n], at, true);
    assert s == s[..n] + [s[n]];
    if d != s[n] { SweptKeepsRichest(s[..n], at, d); }
    if out != [] {
      var last := out[|out| - 1];
      assert last in out;
      SweptFrom(s[..n], at, true, last);
      var k :| 0 <= k < n && s[k] == last;
    }
    var i :| 0 <= i < |s| && s[i] == d;
    StepKeepsRichest(out, s[n], at, d);
  }

  /** Where rank counts, the one of highest rank among equally long spans is kept if nothing longer is near. */
  lemma RichestIsKept<T(!new)>(items: seq<T>, at: T -> Range, d: T)
    requires AllPositive(items, at) && d in items && RichestOfTies(items, d, at)
    ensures d in Sweep(items, at, true)
  {
    hide Earlier, Swept, Sort, Overlap;
    var s := Sort(items, InOrder(at));
    SortedByStart(items, at);
    SortElements(items, InOrder(at));
    forall i | 0 <= i < |s| && Overlap(at(d), at(s[i])) ensures s[i] == d || Poorer(at(s[i]), at(d)) {
      assert s[i] in items;
      var k :| 0 <= k < |items| && items[k] == s[i];
    }
    SweptKeepsRichest(s, at, d);
  }

  /** Of two different spans that overlap, at most one is kept. */
  lemma NotBothKept<T(!new)>(items: seq<T>, at: T -> Range, byRank: bool, a: T, b: T)
    requires AllPositive(items, at) && a != b && Overlap(at(a), at(b))
    requires a in Sweep(items, at, byRank)
    ensures b !in Sweep(items, at, byRank)
  {
    hide Sweep;
    SweepIsApart(items, at, byRank);
    var out := Sweep(items, at, byRank);
    var i :| 0 <= i < |out| && out[i] == a;
    forall j | 0 <= j < |out| ensures out[j] != b {
      assert i < j ==> at(out[i]).end <= at(out[j]).start;
      assert j < i ==> at(out[j]).end <= at(out[i]).start;
    }
  }

  // --- rank -------------------------------------------------------------------

  /** The last span kept stands over `e`. */
  ghost predicate Covers(prev: Range, e: Range, byRank: bool) {
    prev.end > e.start && (prev.Len() > e.Len() || (prev.Len() == e.Len() && (byRank ==> prev.rank >= e.rank)))
  }

  lemma StepCovers<T>(out: seq<T>, c: T, at: T -> Range, byRank: bool, e: Range)
    requires e.start < e.end
    requires at(c).start == e.start && at(c).end == e.end
    requires at(c) == e || (out != [] && Covers(at(out[|out| - 1]), e, byRank))
    ensures var r := Step(out, c, at, byRank); r != [] && Covers(at(r[|r| - 1]), e, byRank)
  {
  }

  lemma StepRefuses<T>(out: seq<T>, t: T, at: T -> Range, byRank: bool, e: Range)
    requires out != [] && Covers(at(out[|out| - 1]), e, byRank)
    requires at(t).start == e.start && at(t).end == e.end && at(t).rank < e.rank
    ensures Step(out, t, at, byRank) == out
  {
  }

  lemma BetweenTwins<T>(s: seq<T>, at: T -> Range, i: nat, k: nat, j: nat)
    requires i <= k <= j < |s| && Ordered(InOrder(at), s)
    requires at(s[i]).start == at(s[j]).start && at(s[i]).end == at(s[j]).end
    ensures at(s[k]).start == at(s[i]).start && at(s[k]).end == at(s[i]).end
  {
    var le := InOrder(at);
    assert i < k ==> le(s[i], s[k]);
    assert k < j ==> le(s[k], s[j]);
  }

  lemma {:induction false} CoveredUpTo<T>(s: seq<T>, at: T -> Range, byRank: bool, i: nat, n: nat, j: nat)
    requires i < n <= j < |s| && Ordered(InOrder(at), s)
    requires at(s[i]).start == at(s[j]).start < at(s[j]).end == at(s[i]).end
    ensures var r := Swept(s[..n], at, byRank); r != [] && Covers(at(r[|r| - 1]), at(s[i]), byRank)
    decreases n
  {
    hide Step, Covers, Earlier;
    BetweenTwins(s, at, i, n - 1, j);
    if n - 1 > i { CoveredUpTo(s, at, byRank, i, n - 1, j); }
    assert s[..n][..n - 1] == s[..n - 1];
    StepCovers(Swept(s[..n - 1], at, byRank), s[n - 1], at, byRank, at(s[i]));
  }

  lemma StepAdds<T>(out: seq<T>, c: T, at: T -> Range, byRank: bool, x: T)
    requires x !in out && x in Step(out, c, at, byRank)
    ensures x == c && Step(out, c, at, byRank) != out
  {
    hide Beats;
  }

  lemma {:induction false} TwinRefused<T>(s: seq<T>, at: T -> Range, byRank: bool, i: nat, t: T, n: nat)
    requires i < |s| && n <= |s| && Ordered(InOrder(at), s)
    requires at(s[i]).start == at(t).start < at(t).end == at(s[i]).end && at(t).rank < at(s[i]).rank
    ensures t !in Swept(s[..n], at, byRank)
    decreases n
  {
    hide Step, Covers;
    if n > 0 {
      var le := InOrder(at);
      if n - 1 < i { assert le(s[n - 1], s[i]); }
      TwinRefused(s, at, byRank, i, t, n - 1);
      assert s[..n][..n - 1] == s[..n - 1];
      var out := Swept(s[..n - 1], at, byRank);
      if t in Step(out, s[n - 1], at, byRank) {
        StepAdds(out, s[n - 1], at, byRank, t);
        CoveredUpTo(s, at, byRank, i, n - 1, n - 1);
        StepRefuses(out, t, at, byRank, at(s[i]));
      }
    }
  }

  /** Of two items with the same range, the one of lower rank is never kept. */
  lemma LowerTwinIsDropped<T(!new)>(items: seq<T>, at: T -> Range, byRank: bool, e: T, t: T)
    requires e in items && at(e).start == at(t).start < at(t).end == at(e).end && at(t).rank < at(e).rank
    ensures t !in Sweep(items, at, byRank)
  {
    hide Swept, Sort;
    var le := InOrder(at);
    var s := Sort(items, le);
    assert TotalPreorder(le, items);
    SortOrdered(items, le);
    SortElements(items, le);
    assert e in s;
    var i :| 0 <= i < |s| && s[i] == e;
    TwinRefused(s, at, byRank, i, t, |s|);
    assert s[..|s|] == s;
  }
}
