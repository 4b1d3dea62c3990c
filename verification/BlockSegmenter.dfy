/** Cutting the pages of a private document into blocks at blank lines. */
module BlockSegmenter {
  import opened Wrappers
  import opened Text

  datatype Stretch = Stretch(start: nat, end: nat)

  datatype Block = Block(text: string, start: nat, end: nat, page: nat)

  // ---------------------------------------------------------------------------
  // Splitting at blank lines
  // ---------------------------------------------------------------------------

  /** Just after the last line break in `lo..hi`. */
  function LastBreak(t: string, lo: nat, hi: nat): (e: Option<nat>)
    requires lo <= hi <= |t|
    ensures e.Some? ==> lo < e.value <= hi
    ensures e.None? ==> forall x | lo <= x < hi :: t[x] != '\n'
    ensures e.Some? ==> t[e.value - 1] == '\n' && forall x | e.value <= x < hi :: t[x] != '\n'
    decreases hi
  {
    if lo == hi then None
    else if t[hi - 1] == '\n' then Some(hi)
    else LastBreak(t, lo, hi - 1)
  }

  /** A line break, white space, and a last line break: the longest such stretch from `i`. */
  function SeparatorEnd(t: string, i: nat): (e: Option<nat>)
    requires i < |t|
    ensures e.Some? ==> i + 2 <= e.value <= |t|
  {
    if t[i] == '\n' then LastBreak(t, i + 1, SkipSpaces(t, i + 1)) else None
  }

  /** The pieces between separators; the current piece began at `from` and the reading is at `i`. */
  function Pieces(t: string, from: nat, i: nat): seq<Stretch>
    requires from <= i <= |t|
    decreases |t| - i
  {
    if i == |t| then [Stretch(from, |t|)]
    else
      var e := SeparatorEnd(t, i);
      if e.Some? then [Stretch(from, i)] + Pieces(t, e.value, e.value) else Pieces(t, from, i + 1)
  }

  lemma PiecesStep(t: string, from: nat, i: nat)
    requires from <= i <= |t|
    ensures Pieces(t, from, i) ==
            if i == |t| then [Stretch(from, |t|)]
            else if SeparatorEnd(t, i).Some? then
              [Stretch(from, i)] + Pieces(t, SeparatorEnd(t, i).value, SeparatorEnd(t, i).value)
            else Pieces(t, from, i + 1)
  {
    hide SeparatorEnd;
  }

  method SplitPage(t: string) returns (ps: seq<Stretch>)
    ensures ps == Pieces(t, 0, 0)
  {
    hide SeparatorEnd, Pieces;
    ps := [];
    var from: nat, i: nat := 0, 0;
    while i < |t|
      invariant from <= i <= |t| && ps + Pieces(t, from, i) == Pieces(t, 0, 0)
    {
      PiecesStep(t, from, i);
      var e := SeparatorEnd(t, i);
      if e.Some? {
        ps := ps + [Stretch(from, i)];
        from, i := e.value, e.value;
      } else {
        i := i + 1;
      }
    }
    PiecesStep(t, from, i);
    ps := ps + [Stretch(from, |t|)];
  }

  /** White space, two characters of it at least, and nothing else. */
  ghost predicate Blank(t: string, i: nat, j: nat) {
    i + 2 <= j <= |t| && AllSpaces(t[i..j])
  }

  /** The pieces follow each other from `from` to the end of the text, with only blank stretches between them. */
  ghost predicate Tiles(t: string, from: nat, ps: seq<Stretch>) {
    && ps != [] && ps[0].start == from && ps[|ps| - 1].end == |t|
    && (forall k | 0 <= k < |ps| :: ps[k].start <= ps[k].end <= |t|)
    && forall k | 0 < k < |ps| :: Blank(t, ps[k - 1].end, ps[k].start)
  }

  lemma SeparatorIsBlank(t: string, i: nat)
    requires i < |t| && SeparatorEnd(t, i).Some?
    ensures Blank(t, i, SeparatorEnd(t, i).value)
  {
    hide IsSpace;
    NewlineBreaks();
    BreaksAreSpaces('\n');
    var s, e := SkipSpaces(t, i + 1), SeparatorEnd(t, i).value;
    forall x | 0 <= x < e - i ensures IsSpace(t[i..e][x]) {
      if x > 0 { assert t[i + 1..s][x - 1] == t[i + x]; }
    }
  }

  lemma TilesGrow(t: string, r: Stretch, e: nat, ps: seq<Stretch>)
    requires Tiles(t, e, ps) && r.start <= r.end <= |t| && Blank(t, r.end, e)
    ensures Tiles(t, r.start, [r] + ps)
  {
    hide Blank;
    var all := [r] + ps;
    forall k | 0 < k < |all| ensures Blank(t, all[k - 1].end, all[k].start) {
      if k > 1 { assert Blank(t, ps[k - 2].end, ps[k - 1].start); }
    }
  }

  /** Splitting loses only blank stretches. */
  lemma {:induction false} PiecesTile(t: string, from: nat, i: nat)
    requires from <= i <= |t|
    ensures Tiles(t, from, Pieces(t, from, i))
    decreases |t| - i
  {
    hide SeparatorEnd, Blank, Pieces, Tiles;
    PiecesStep(t, from, i);
    if i == |t| {
      OnePiece(t, from);
    } else {
      var e := SeparatorEnd(t, i);
      if e.Some? {
        PiecesTile(t, e.value, e.value);
        SeparatorIsBlank(t, i);
        TilesGrow(t, Stretch(from, i), e.value, Pieces(t, e.value, e.value));
      } else {
        PiecesTile(t, from, i + 1);
      }
    }
  }

  lemma OnePiece(t: string, from: nat)
    requires from <= |t|
    ensures Tiles(t, from, [Stretch(from, |t|)])
  {
  }

  // ---------------------------------------------------------------------------
  // Finding a block again in the text
  // ---------------------------------------------------------------------------

  /** `str.find`: the first place at or after `from` where `w` stands. */
  ghost predicate IsFound(text: string, w: string, from: nat, r: Option<nat>) {
    match r
    case None => forall i: nat | from <= i :: !Occurs(text, i, w)
    case Some(n) => from <= n && Occurs(text, n, w) && forall i | from <= i < n :: !Occurs(text, i, w)
  }

  method Find(text: string, w: string, from: nat) returns (r: Option<nat>)
    ensures IsFound(text, w, from, r)
  {
    var i := from;
    while i <= |text|
      invariant from <= i && forall j | from <= j < i :: !Occurs(text, j, w)
      decreases |text| + 1 - i
    {
      if Occurs(text, i, w) { return Some(i); }
      i := i + 1;
    }
    r := None;
  }

  lemma SpaceInside(text: string, lo: nat, hi: nat, x: nat)
    requires lo <= x < hi <= |text| && AllSpaces(text[lo..hi])
    ensures IsSpace(text[x])
  {
    assert text[lo..hi][x - lo] == text[x];
  }

  /** What begins with something visible is found where the white space before it ends. */
  lemma FoundAfterSpaces(text: string, w: string, from: nat, at: nat, r: Option<nat>)
    requires from <= at <= |text| && AllSpaces(text[from..at])
    requires Occurs(text, at, w) && w != [] && !IsSpace(w[0])
    requires IsFound(text, w, from, r)
    ensures r == Some(at)
  {
    forall i | from <= i < at ensures !Occurs(text, i, w) {
      SpaceInside(text, from, at, i);
      assert i + |w| <= |text| ==> text[i..i + |w|][0] == text[i];
    }
  }

  // ---------------------------------------------------------------------------
  // Blocks
  // ---------------------------------------------------------------------------

  /** Blocks quote the text, in order, none overlapping another, all within `lo..hi`. */
  ghost predicate Quoting(text: string, bs: seq<Block>, lo: nat, hi: nat) {
    && (forall k | 0 <= k < |bs| ::
          lo <= bs[k].start < bs[k].end <= hi <= |text| && bs[k].text == text[bs[k].start..bs[k].end])
    && forall j, k | 0 <= j < k < |bs| :: bs[j].end <= bs[k].start
  }

  ghost predicate InBlock(bs: seq<Block>, x: nat) {
    exists k | 0 <= k < |bs| :: bs[k].start <= x < bs[k].end
  }

  /** Every visible character of `lo..hi` is in a block. */
  ghost predicate Covering(text: string, bs: seq<Block>, lo: nat, hi: nat) {
    hi <= |text| && forall x | lo <= x < hi && !IsSpace(text[x]) :: InBlock(bs, x)
  }

  /** The stripped text of each piece that has any. */
  function Visible(t: string, ps: seq<Stretch>): seq<string>
    requires forall k | 0 <= k < |ps| :: ps[k].start <= ps[k].end <= |t|
  {
    if ps == [] then []
    else
      var n := |ps| - 1;
      var s := Strip(t[ps[n].start..ps[n].end]);
      Visible(t, ps[..n]) + (if s == [] then [] else [s])
  }

  function TextsOf(bs: seq<Block>): seq<string> {
    seq(|bs|, i requires 0 <= i < |bs| => bs[i].text)
  }

  lemma QuotingGrows(text: string, bs: seq<Block>, b: Block, lo: nat, mid: nat, hi: nat)
    requires Quoting(text, bs, lo, mid) && lo <= mid <= b.start < b.end <= hi <= |text|
             && b.text == text[b.start..b.end]
    ensures Quoting(text, bs + [b], lo, hi)
  {
  }

  lemma QuotingWidens(text: string, bs: seq<Block>, lo: nat, mid: nat, hi: nat)
    requires Quoting(text, bs, lo, mid) && mid <= hi <= |text|
    ensures Quoting(text, bs, lo, hi)
  {
  }

  lemma CoveringGrows(text: string, bs: seq<Block>, b: Block, lo: nat, mid: nat, hi: nat)
    requires Covering(text, bs, lo, mid) && mid <= b.start <= b.end <= hi <= |text|
    requires AllSpaces(text[mid..b.start]) && AllSpaces(text[b.end..hi])
    ensures Covering(text, bs + [b], lo, hi)
  {
    hide IsSpace, AllSpaces;
    forall x | mid <= x < b.start ensures IsSpace(text[x]) { SpaceInside(text, mid, b.start, x); }
    forall x | b.end <= x < hi ensures IsSpace(text[x]) { SpaceInside(text, b.end, hi, x); }
    forall x | lo <= x < hi && !IsSpace(text[x]) ensures InBlock(bs + [b], x) {
      if x < mid {
        var k :| 0 <= k < |bs| && bs[k].start <= x < bs[k].end;
        assert (bs + [b])[k] == bs[k];
      } else {
        assert (bs + [b])[|bs|] == b;
      }
    }
  }

  lemma CoveringSpaces(text: string, bs: seq<Block>, lo: nat, mid: nat, hi: nat)
    requires Covering(text, bs, lo, mid) && mid <= hi <= |text| && AllSpaces(text[mid..hi])
    ensures Covering(text, bs, lo, hi)
  {
    hide IsSpace, AllSpaces;
    forall x | mid <= x < hi ensures IsSpace(text[x]) { SpaceInside(text, mid, hi, x); }
  }

  lemma SliceOfSlice(text: string, i: nat, l: nat, a: nat, b: nat)
    requires i <= l <= |text| && a <= b <= l - i
    ensures text[i..l][a..b] == text[i + a..i + b]
  {
    var s, r := text[i..l][a..b], text[i + a..i + b];
    assert |s| == |r|;
    forall x | 0 <= x < |s| ensures s[x] == r[x] {
      assert s[x] == text[i..l][a + x];
    }
  }

  lemma SpacesJoin(text: string, i: nat, j: nat, k: nat)
    requires i <= j <= k <= |text| && AllSpaces(text[i..j]) && AllSpaces(text[j..k])
    ensures AllSpaces(text[i..k])
  {
    assert text[i..k] == text[i..j] + text[j..k];
  }

  lemma SpacesWithin(text: string, i: nat, j: nat, k: nat, l: nat)
    requires i <= j <= k <= l <= |text| && AllSpaces(text[i..l])
    ensures AllSpaces(text[j..k])
  {
    SliceOfSlice(text, i, l, j - i, k - i);
  }

  lemma PartsOf(a: string, w: string, b: string)
    ensures (a + w + b)[0..|a|] == a
    ensures (a + w + b)[|a|..|a| + |w|] == w
    ensures (a + w + b)[|a| + |w|..|a| + |w| + |b|] == b
  {
  }

  /** The three parts of a slice, each found at its place in the text. */
  lemma SlicesOf(text: string, i: nat, j: nat, a: string, w: string, b: string)
    requires i <= j <= |text| && text[i..j] == a + w + b
    ensures i + |a| + |w| + |b| == j
    ensures text[i..i + |a|] == a && text[i + |a|..i + |a| + |w|] == w && text[i + |a| + |w|..j] == b
  {
    var k, l := |a|, |a| + |w|;
    assert |text[i..j]| == j - i == l + |b|;
    PartsOf(a, w, b);
    SliceOfSlice(text, i, j, 0, k);
    SliceOfSlice(text, i, j, k, l);
    SliceOfSlice(text, i, j, l, j - i);
    assert text[i..i + k] == text[i..j][0..k] == a;
    assert text[i + k..i + l] == text[i..j][k..l] == w;
    assert text[i + l..j] == text[i..j][l..j - i] == b;
  }

  /** Where the visible part of a slice stands. */
  lemma VisiblePart(text: string, i: nat, j: nat) returns (p: nat)
    requires i <= j <= |text|
    ensures var w := Strip(text[i..j]);
            && i <= p && p + |w| <= j && Occurs(text, p, w)
            && AllSpaces(text[i..p]) && AllSpaces(text[p + |w|..j])
            && (w != [] ==> !IsSpace(w[0]))
  {
    hide Strip, IsSpace, AllSpaces;
    var a, b := StripCuts(text[i..j]);
    StrippedStart(text[i..j]);
    p := i + |a|;
    SlicesOf(text, i, j, a, Strip(text[i..j]), b);
  }

  lemma StrippedStart(s: string)
    ensures Strip(s) != [] ==> !IsSpace(Strip(s)[0])
  {
    StripIsStripped(s);
    hide Strip, IsSpace;
  }

  /** After some pieces of a page: `mid` is where the next piece begins, or the page ends. */
  ghost predicate Sofar(text: string, page: Stretch, ps: seq<Stretch>, k: nat, bs: seq<Block>, offset: nat, mid: nat)
    requires page.start <= page.end <= |text| && k <= |ps|
  {
    && page.start <= mid <= page.end
    && mid == (if k < |ps| then page.start + ps[k].start else page.end)
    && Quoting(text, bs, page.start, mid) && Covering(text, bs, page.start, mid)
    && (k < |ps| ==> offset <= mid && AllSpaces(text[offset..mid]))
    && (forall i | 0 <= i < |ps| :: ps[i].start <= ps[i].end <= page.end - page.start)
    && TextsOf(bs) == Visible(text[page.start..page.end], ps[..k])
  }

  /** The end of a piece, and where the next one begins. */
  lemma NextPiece(text: string, page: Stretch, ps: seq<Stretch>, k: nat) returns (next: nat)
    requires page.start <= page.end <= |text| && Tiles(text[page.start..page.end], 0, ps) && k < |ps|
    ensures next == (if k + 1 < |ps| then page.start + ps[k + 1].start else page.end)
    ensures page.start + ps[k].end <= next <= page.end && AllSpaces(text[page.start + ps[k].end..next])
    ensures k + 1 < |ps| ==> page.start + ps[k].end + 2 <= next
  {
    hide IsSpace;
    var t := text[page.start..page.end];
    if k + 1 < |ps| {
      next := page.start + ps[k + 1].start;
      assert Blank(t, ps[k].end, ps[k + 1].start);
      SliceOfSlice(text, page.start, page.end, ps[k].end, ps[k + 1].start);
    } else {
      next := page.end;
    }
  }

  /** A blank piece: the offset moves on by its length and two, which is never past the next piece. */
  lemma BlankPiece(text: string, page: Stretch, ps: seq<Stretch>, k: nat, bs: seq<Block>, offset: nat, mid: nat)
    requires page.start <= page.end <= |text| && Tiles(text[page.start..page.end], 0, ps) && k < |ps|
    requires Sofar(text, page, ps, k, bs, offset, mid)
    requires Strip(text[page.start..page.end][ps[k].start..ps[k].end]) == []
    ensures var next := if k + 1 < |ps| then page.start + ps[k + 1].start else page.end;
            Sofar(text, page, ps, k + 1, bs, offset + (ps[k].end - ps[k].start) + 2, next)
  {
    hide IsSpace, Strip, Covering, Quoting, Tiles;
    var next := NextPiece(text, page, ps, k);
    var end := page.start + ps[k].end;
    SliceOfSlice(text, page.start, page.end, ps[k].start, ps[k].end);
    var p := VisiblePart(text, mid, end);
    SpacesJoin(text, mid, p, end);
    SpacesJoin(text, mid, end, next);
    CoveringSpaces(text, bs, page.start, mid, next);
    QuotingWidens(text, bs, page.start, mid, next);
    assert ps[..k + 1][..k] == ps[..k];
    if k + 1 < |ps| {
      SpacesJoin(text, offset, mid, next);
      SpacesWithin(text, offset, offset + (ps[k].end - ps[k].start) + 2, next, next);
    }
  }

  /** A visible piece: it is found again exactly where it stands. */
  lemma VisiblePiece(text: string, page: Stretch, ps: seq<Stretch>, k: nat, bs: seq<Block>, offset: nat, mid: nat,
                     w: string, r: Option<nat>, pageNumber: nat)
    requires page.start <= page.end <= |text| && Tiles(text[page.start..page.end], 0, ps) && k < |ps|
    requires Sofar(text, page, ps, k, bs, offset, mid)
    requires w == Strip(text[page.start..page.end][ps[k].start..ps[k].end]) && w != []
    requires IsFound(text, w, offset, r)
    ensures r.Some?
    ensures var next := if k + 1 < |ps| then page.start + ps[k + 1].start else page.end;
            var b := Block(w, r.value, r.value + |w|, pageNumber);
            Sofar(text, page, ps, k + 1, bs + [b], r.value + |w|, next)
  {
    hide IsSpace, Strip, Covering, Quoting, Tiles, IsFound;
    var next := NextPiece(text, page, ps, k);
    var end := page.start + ps[k].end;
    SliceOfSlice(text, page.start, page.end, ps[k].start, ps[k].end);
    var p := VisiblePart(text, mid, end);
    SpacesJoin(text, offset, mid, p);
    FoundAfterSpaces(text, w, offset, p, r);
    var b := Block(w, p, p + |w|, pageNumber);
    SpacesJoin(text, b.end, end, next);
    CoveringGrows(text, bs, b, page.start, mid, next);
    QuotingGrows(text, bs, b, page.start, mid, next);
    assert ps[..k + 1][..k] == ps[..k];
    assert TextsOf(bs + [b]) == TextsOf(bs) + [w];
  }

  lemma NothingSofar(text: string, page: Stretch, ps: seq<Stretch>)
    requires page.start <= page.end <= |text| && Tiles(text[page.start..page.end], 0, ps)
    ensures Sofar(text, page, ps, 0, [], page.start, page.start)
  {
  }

  /** The blocks of one page. Looking a block up in the text never fails, so its place is always its own. */
  method PageBlocks(text: string, page: Stretch, pageNumber: nat) returns (bs: seq<Block>)
    requires page.start <= page.end <= |text|
    ensures Quoting(text, bs, page.start, page.end) && Covering(text, bs, page.start, page.end)
    ensures PiecesFit(text, page) && TextsOf(bs) == Visible(text[page.start..page.end],
            Pieces(text[page.start..page.end], 0, 0))
    ensures forall k | 0 <= k < |bs| :: bs[k].page == pageNumber
  {
    hide Pieces, Tiles, Sofar, Strip, IsFound;
    var t := text[page.start..page.end];
    var ps := SplitPage(t);
    PiecesTile(t, 0, 0);
    NothingSofar(text, page, ps);
    PiecesFitPage(text, page);
    var offset: nat := page.start;
    ghost var mid: nat := page.start;
    bs := [];
    for k := 0 to |ps|
      invariant Sofar(text, page, ps, k, bs, offset, mid)
      invariant forall i | 0 <= i < |bs| :: bs[i].page == pageNumber
    {
      Fitting(text, page, ps, k);
      var stripped := Strip(t[ps[k].start..ps[k].end]);
      if stripped == [] {
        BlankPiece(text, page, ps, k, bs, offset, mid);
        offset := offset + (ps[k].end - ps[k].start) + 2;
      } else {
        var found := Find(text, stripped, offset);
        VisiblePiece(text, page, ps, k, bs, offset, mid, stripped, found, pageNumber);
        var start := if found.Some? then found.value else offset;
        bs := bs + [Block(stripped, start, start + |stripped|, pageNumber)];
        offset := start + |stripped|;
      }
      mid := if k + 1 < |ps| then page.start + ps[k + 1].start else page.end;
    }
    SofarEnds(text, page, ps, bs, offset, mid);
  }

  ghost predicate PiecesFit(text: string, page: Stretch)
    requires page.start <= page.end <= |text|
  {
    var t := text[page.start..page.end];
    forall k | 0 <= k < |Pieces(t, 0, 0)| :: Pieces(t, 0, 0)[k].start <= Pieces(t, 0, 0)[k].end <= |t|
  }

  lemma PiecesFitPage(text: string, page: Stretch)
    requires page.start <= page.end <= |text|
    ensures PiecesFit(text, page)
  {
    hide Pieces, Blank;
    PiecesTile(text[page.start..page.end], 0, 0);
  }

  lemma Fitting(text: string, page: Stretch, ps: seq<Stretch>, k: nat)
    requires page.start <= page.end <= |text| && Tiles(text[page.start..page.end], 0, ps) && k < |ps|
    ensures ps[k].start <= ps[k].end <= page.end - page.start
  {
    hide Blank;
  }

  lemma SofarEnds(text: string, page: Stretch, ps: seq<Stretch>, bs: seq<Block>, offset: nat, mid: nat)
    requires page.start <= page.end <= |text| && Sofar(text, page, ps, |ps|, bs, offset, mid)
    ensures Quoting(text, bs, page.start, page.end) && Covering(text, bs, page.start, page.end)
    ensures forall i | 0 <= i < |ps| :: ps[i].start <= ps[i].end <= page.end - page.start
    ensures TextsOf(bs) == Visible(text[page.start..page.end], ps)
  {
    assert ps[..|ps|] == ps;
  }

  // ---------------------------------------------------------------------------
  // All pages
  // ---------------------------------------------------------------------------

  ghost predicate InPageOrder(text: string, pages: seq<Stretch>) {
    && (forall k | 0 <= k < |pages| :: pages[k].start <= pages[k].end <= |text|)
    && forall j, k | 0 <= j < k < |pages| :: pages[j].end <= pages[k].start
  }

  ghost predicate OnPages(text: string, pages: seq<Stretch>, bs: seq<Block>)
    requires InPageOrder(text, pages)
  {
    && (forall k | 0 <= k < |bs| :: 1 <= bs[k].page <= |pages| && pages[bs[k].page - 1].start <= bs[k].start
                                    && bs[k].end <= pages[bs[k].page - 1].end)
    && forall p | 0 <= p < |pages| :: Covering(text, bs, pages[p].start, pages[p].end)
  }

  lemma PagesGrow(text: string, pages: seq<Stretch>, n: nat, bs: seq<Block>, more: seq<Block>)
    requires InPageOrder(text, pages) && n < |pages|
    requires Quoting(text, bs, 0, if n == 0 then 0 else pages[n - 1].end) && OnPages(text, pages[..n], bs)
    requires Quoting(text, more, pages[n].start, pages[n].end) && Covering(text, more, pages[n].start, pages[n].end)
    requires forall k | 0 <= k < |more| :: more[k].page == n + 1
    ensures Quoting(text, bs + more, 0, pages[n].end) && OnPages(text, pages[..n + 1], bs + more)
  {
    hide IsSpace;
    var all := bs + more;
    forall p | 0 <= p < n + 1 ensures Covering(text, all, pages[p].start, pages[p].end) {
      if p < n {
        assert Covering(text, bs, pages[..n][p].start, pages[..n][p].end);
        CoverLeft(text, bs, more, pages[p].start, pages[p].end);
      } else {
        CoverRight(text, bs, more, pages[p].start, pages[p].end);
      }
    }
  }

  lemma CoverLeft(text: string, bs: seq<Block>, more: seq<Block>, lo: nat, hi: nat)
    requires Covering(text, bs, lo, hi)
    ensures Covering(text, bs + more, lo, hi)
  {
    hide IsSpace;
    forall x | lo <= x < hi && !IsSpace(text[x]) ensures InBlock(bs + more, x) {
      var k :| 0 <= k < |bs| && bs[k].start <= x < bs[k].end;
      assert (bs + more)[k] == bs[k];
    }
  }

  lemma CoverRight(text: string, bs: seq<Block>, more: seq<Block>, lo: nat, hi: nat)
    requires Covering(text, more, lo, hi)
    ensures Covering(text, bs + more, lo, hi)
  {
    hide IsSpace;
    forall x | lo <= x < hi && !IsSpace(text[x]) ensures InBlock(bs + more, x) {
      var k :| 0 <= k < |more| && more[k].start <= x < more[k].end;
      assert (bs + more)[|bs| + k] == more[k];
    }
  }

  /** The whole document: blocks quote the text where they say, in order and apart, and cover all that is visible. */
  method SegmentBlocks(text: string, pages: seq<Stretch>) returns (bs: seq<Block>)
    requires InPageOrder(text, pages)
    ensures Quoting(text, bs, 0, |text|) && OnPages(text, pages, bs)
  {
    hide Quoting, Covering, OnPages;
    bs := [];
    NoPages(text, pages);
    for n := 0 to |pages|
      invariant Quoting(text, bs, 0, if n == 0 then 0 else pages[n - 1].end) && OnPages(text, pages[..n], bs)
    {
      var more := PageBlocks(text, pages[n], n + 1);
      PagesGrow(text, pages, n, bs, more);
      bs := bs + more;
    }
    assert pages[..|pages|] == pages;
    QuotingWidens(text, bs, 0, if |pages| == 0 then 0 else pages[|pages| - 1].end, |text|);
  }

  lemma NoPages(text: string, pages: seq<Stretch>)
    ensures Quoting(text, [], 0, 0) && OnPages(text, pages[..0], [])
  {
  }

  /** A visible character of a page is in one block only. */
  lemma OneBlockOnly(text: string, bs: seq<Block>, x: nat, j: nat, k: nat)
    requires Quoting(text, bs, 0, |text|) && j < |bs| && k < |bs|
    requires bs[j].start <= x < bs[j].end && bs[k].start <= x < bs[k].end
    ensures j == k
  {
  }
}
