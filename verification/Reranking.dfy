/** Ranking candidates: by words in common with the query, then by authority, recency breaking near ties. */
module Reranking {
  import opened Wrappers
  import opened StableSort
  import opened Text

  // ---------------------------------------------------------------------------
  // Words in common
  // ---------------------------------------------------------------------------

  predicate IsWordChar(c: char) {
    'a' <= c <= 'z' || 'A' <= c <= 'Z' || '0' <= c <= '9'
  }

  function WordEnd(t: string, i: nat): (e: nat)
    requires i <= |t|
    ensures i <= e <= |t| && (i < |t| && IsWordChar(t[i]) ==> i < e)
    decreases |t| - i
  {
    if i < |t| && IsWordChar(t[i]) then WordEnd(t, i + 1) else i
  }

  /** The words of three letters or more from `i` on, in lower case. */
  function Tokens(t: string, i: nat): set<string>
    requires i <= |t|
    decreases |t| - i
  {
    if i == |t| then {}
    else if IsWordChar(t[i]) then
      var e := WordEnd(t, i);
      (if e - i > 2 then {Lowered(t[i..e])} else {}) + Tokens(t, e)
    else Tokens(t, i + 1)
  }

  ghost predicate Alphanumeric(c: char) {
    'a' <= c <= 'z' || 'A' <= c <= 'Z' || '0' <= c <= '9'
  }

  ghost predicate SmallOf(w: char, c: char) {
    if 'A' <= c <= 'Z' then w as int - 'a' as int == c as int - 'A' as int else w == c
  }

  /** A longest run of at least three ASCII letters and digits, and the same run in small letters. */
  ghost predicate WordOf(t: string, i: nat, e: nat, w: string) {
    && i + 3 <= e <= |t| && |w| == e - i
    && (forall k | i <= k < e :: Alphanumeric(t[k]))
    && (i == 0 || !Alphanumeric(t[i - 1])) && (e == |t| || !Alphanumeric(t[e]))
    && (forall k | 0 <= k < |w| :: SmallOf(w[k], t[i + k]))
  }

  lemma {:induction false} WordEndIs(t: string, i: nat)
    requires i <= |t|
    ensures forall k | i <= k < WordEnd(t, i) :: Alphanumeric(t[k])
    ensures WordEnd(t, i) == |t| || !Alphanumeric(t[WordEnd(t, i)])
    decreases |t| - i
  {
    if i < |t| && IsWordChar(t[i]) { WordEndIs(t, i + 1); }
  }

  lemma LoweredIs(s: string, w: string)
    ensures w == Lowered(s) <==> |w| == |s| && forall k | 0 <= k < |w| :: SmallOf(w[k], s[k])
  {
    if |w| == |s| && forall k | 0 <= k < |w| :: SmallOf(w[k], s[k]) {
      forall k | 0 <= k < |w| ensures w[k] == Lowered(s)[k] {
        assert SmallOf(w[k], s[k]);
      }
    }
  }

  /** The tokens are the runs of three or more ASCII letters and digits, in small letters. */
  lemma {:induction false} TokensAre(t: string, from: nat, w: string)
    requires from <= |t|
    requires from == 0 || from == |t| || !Alphanumeric(t[from - 1]) || !Alphanumeric(t[from])
    ensures w in Tokens(t, from) <==> exists i, e :: from <= i && WordOf(t, i, e, w)
    decreases |t| - from
  {
    if from == |t| {
    } else if IsWordChar(t[from]) {
      var e := WordEnd(t, from);
      WordEndIs(t, from);
      TokensAre(t, e, w);
      TokenHere(t, from, e, w);
      hide Tokens, WordEnd, WordOf, Lowered;
      assert w in Tokens(t, from) <==> (e - from > 2 && w == Lowered(t[from..e])) || w in Tokens(t, e) by {
        TokensStep(t, from, e);
      }
    } else {
      TokensAre(t, from + 1, w);
      assert forall e :: !WordOf(t, from, e, w);
    }
  }

  lemma TokensStep(t: string, i: nat, e: nat)
    requires i < |t| && IsWordChar(t[i]) && e == WordEnd(t, i)
    ensures Tokens(t, i) == (if e - i > 2 then {Lowered(t[i..e])} else {}) + Tokens(t, e)
  {
  }

  lemma TokenHere(t: string, from: nat, e: nat, w: string)
    requires from < e <= |t| && (forall k | from <= k < e :: Alphanumeric(t[k])) && (e == |t| || !Alphanumeric(t[e]))
    requires from == 0 || !Alphanumeric(t[from - 1])
    ensures (exists i, f :: from <= i && WordOf(t, i, f, w)) <==>
            (e - from > 2 && w == Lowered(t[from..e])) || exists i, f :: e <= i && WordOf(t, i, f, w)
  {
    LoweredIs(t[from..e], w);
    assert forall k | 0 <= k < e - from :: t[from..e][k] == t[from + k];
    hide Lowered;
    if i: nat, f: nat :| from <= i && WordOf(t, i, f, w) {
      if from < i < e {
        assert Alphanumeric(t[i - 1]);
      }
    }
    if e - from > 2 && w == Lowered(t[from..e]) {
      assert WordOf(t, from, e, w);
    }
  }

  function AtLeast1(n: nat): real {
    if n == 0 then 1.0 else n as real
  }

  function Share(part: nat, whole: nat): real {
    part as real / AtLeast1(whole)
  }

  /** Overlap of the query with the text, and how much of the query the title has. */
  function LexicalScore(query: set<string>, text: set<string>, title: set<string>): real {
    if query == {} then 0.0
    else 0.7 * Share(|query * text|, |query + text|) + 0.3 * Share(|query * title|, |query|)
  }

  lemma ShareBounds(part: nat, whole: nat)
    requires part <= whole
    ensures 0.0 <= Share(part, whole) <= 1.0
    ensures Share(part, whole) == 0.0 <==> part == 0
    ensures Share(part, whole) == 1.0 <==> part == whole != 0
  {
    if whole != 0 {
      var w := whole as real;
      assert Share(part, whole) * w == part as real;
    }
  }

  lemma IntersectionFits(a: set<string>, b: set<string>)
    ensures |a * b| <= |a| <= |a + b|
    ensures |a * b| == 0 <==> a * b == {}
  {
    assert a == a * b + (a - b);
    assert a + b == a + (b - a);
  }

  /** The score lies between 0 and 1; it is 0 exactly if no word of the query is in the text or the title. */
  lemma LexicalScoreBounds(query: set<string>, text: set<string>, title: set<string>)
    ensures 0.0 <= LexicalScore(query, text, title) <= 1.0
    ensures LexicalScore(query, text, title) == 0.0 <==> query * (text + title) == {}
  {
    hide Share;
    IntersectionFits(query, text);
    IntersectionFits(query, title);
    ShareBounds(|query * text|, |query + text|);
    ShareBounds(|query * title|, |query|);
    assert query * (text + title) == query * text + query * title;
  }

  /** And it is 1 exactly if the text has the query's words and no others, and the title has them too. */
  lemma PerfectScore(query: set<string>, text: set<string>, title: set<string>)
    ensures LexicalScore(query, text, title) == 1.0 <==> query != {} && text == query && query <= title
  {
    hide Share;
    IntersectionFits(query, text);
    IntersectionFits(query, title);
    ShareBounds(|query * text|, |query + text|);
    ShareBounds(|query * title|, |query|);
    WholeMeansAll(query, text);
    PartIsAll(query, title);
  }

  lemma WholeMeansAll(a: set<string>, b: set<string>)
    ensures |a * b| == |a + b| <==> a == b
  {
    assert a + b == a * b + (a - b) + (b - a);
    if |a * b| == |a + b| {
      assert |a - b| == 0 && |b - a| == 0;
    }
  }

  lemma PartIsAll(a: set<string>, b: set<string>)
    ensures |a * b| == |a| <==> a <= b
  {
    assert a == a * b + (a - b);
    if a <= b { assert a * b == a; }
    if |a * b| == |a| { assert |a - b| == 0; }
  }

  /**
   * The score in full, without division: seven tenths for the share of common words in all words of query and
   * text, three for the share of the query's words that the title has.
   */
  lemma LexicalScoreIs(query: set<string>, text: set<string>, title: set<string>)
    requires query != {}
    ensures 10.0 * |query + text| as real * |query| as real * LexicalScore(query, text, title) ==
            7.0 * |query * text| as real * |query| as real + 3.0 * |query * title| as real * |query + text| as real
  {
    IntersectionFits(query, text);
    assert |query| > 0;
    var a, b := |query + text| as real, |query| as real;
    var x, y := Share(|query * text|, |query + text|), Share(|query * title|, |query|);
    assert x * a == |query * text| as real && y * b == |query * title| as real;
    hide Share;
    Expanded(x, y, a, b);
  }

  lemma Expanded(x: real, y: real, a: real, b: real)
    ensures 10.0 * a * b * (0.7 * x + 0.3 * y) == 7.0 * (x * a) * b + 3.0 * (y * b) * a
  {
  }

  // ---------------------------------------------------------------------------
  // Authority and recency
  // ---------------------------------------------------------------------------

  /** How a date's first four characters read as a number; nothing if they do not. */
  type YearOf = string -> Option<int>

  function RecencyBonus(date: string, yearOf: YearOf): (r: real)
    ensures 0.0 <= r <= 1.0
  {
    if date == [] then 0.0
    else
      var year := yearOf(if |date| <= 4 then date else date[..4]);
      if year.None? || year.value < 1950 then 0.0
      else
        var share := (year.value - 1950) as real / 80.0;
        if share <= 1.0 then share else 1.0
  }

  ghost predicate IsYear(date: string, yearOf: YearOf, year: int) {
    date != [] && yearOf(if |date| < 4 then date else date[..4]) == Some(year)
  }

  /** A date that cannot be read counts nothing; from 1950 to 2030 every year counts an eightieth more. */
  lemma RecencyIs(date: string, yearOf: YearOf, year: int)
    ensures (forall y :: !IsYear(date, yearOf, y)) ==> RecencyBonus(date, yearOf) == 0.0
    ensures IsYear(date, yearOf, year) && year <= 1950 ==> RecencyBonus(date, yearOf) == 0.0
    ensures IsYear(date, yearOf, year) && 1950 <= year <= 2030 ==>
              80.0 * RecencyBonus(date, yearOf) == (year - 1950) as real
    ensures IsYear(date, yearOf, year) && year >= 2030 ==> RecencyBonus(date, yearOf) == 1.0
  {
    assert |date| == 4 ==> date[..4] == date;
    if date != [] {
      var read := yearOf(if |date| < 4 then date else date[..4]);
      assert read.Some? ==> IsYear(date, yearOf, read.value);
    }
  }

  /** The newer of two dates never counts less, and counts more unless both are before 1950 or after 2030. */
  lemma NewerCountsMore(earlier: string, later: string, yearOf: YearOf, a: int, b: int)
    requires IsYear(earlier, yearOf, a) && IsYear(later, yearOf, b) && a < b
    ensures RecencyBonus(earlier, yearOf) <= RecencyBonus(later, yearOf)
    ensures b > 1950 && a < 2030 ==> RecencyBonus(earlier, yearOf) < RecencyBonus(later, yearOf)
  {
    RecencyIs(earlier, yearOf, a);
    RecencyIs(later, yearOf, b);
    hide RecencyBonus;
  }

  function Weight(tier: int): real {
    1.0 / (if tier < 1 then 1 else tier) as real
  }

  function AuthorityScore(tier: int, semantic: real, recency: real): real {
    Weight(tier) + 0.1 * semantic + 0.05 * recency
  }

  predicate Unit(x: real) {
    0.0 <= x <= 1.0
  }

  /** However well the weaker candidate matches and however new it is, the stronger one scores higher. */
  ghost predicate AlwaysAbove(a: int, b: int) {
    forall s, r, s', r' | Unit(s) && Unit(r) && Unit(s') && Unit(r') ::
      AuthorityScore(a, s, r) > AuthorityScore(b, s', r')
  }

  /** One tier is above another whatever the texts and dates exactly if their weights differ by more than 0.15. */
  lemma SeparationIsExact(a: int, b: int)
    ensures AlwaysAbove(a, b) <==> Weight(a) - Weight(b) > 0.15
  {
    hide Weight;
    if Weight(a) - Weight(b) <= 0.15 {
      assert Unit(0.0) && Unit(1.0);
      assert AuthorityScore(a, 0.0, 0.0) <= AuthorityScore(b, 1.0, 1.0);
    }
  }

  lemma WeightFalls(a: int, b: int)
    requires 1 <= a <= b
    ensures Weight(a) >= Weight(b)
  {
    var x, y := a as real, b as real;
    assert Weight(a) * x == 1.0 && Weight(b) * y == 1.0 && Weight(b) > 0.0;
    assert Weight(b) * x <= Weight(b) * y;
    SignOfFactor(Weight(a) - Weight(b), x);
  }

  lemma SignOfFactor(z: real, x: real)
    requires x > 0.0 && z * x >= 0.0
    ensures z >= 0.0
  {
  }

  /** The first two tiers stand above all later ones; from the third on neighbours can change places. */
  lemma TopTiersStand(b: int)
    ensures b >= 2 ==> AlwaysAbove(1, b)
    ensures b >= 3 ==> AlwaysAbove(2, b)
    ensures !AlwaysAbove(3, 4)
  {
    hide AlwaysAbove;
    SeparationIsExact(1, b);
    SeparationIsExact(2, b);
    SeparationIsExact(3, 4);
    assert Weight(1) == 1.0 && Weight(2) == 0.5 && Weight(3) - Weight(4) <= 0.15;
    if b >= 2 { WeightFalls(2, b); }
    if b >= 3 { WeightFalls(3, b); }
    assert Weight(2) - Weight(3) > 0.15;
  }

  // ---------------------------------------------------------------------------
  // The rerankers
  // ---------------------------------------------------------------------------

  /** A candidate; text that is absent is empty. The rerankers write the two scores. */
  class Candidate {
    const summary: string
    const excerpt: string
    const text: string
    const title: string
    const heading: string
    const sectionRef: string
    const tier: int
    const decisionDate: string
    const date: string
    var semanticScore: real
    var score: real

    constructor (summary: string, excerpt: string, text: string, title: string, heading: string, sectionRef: string,
                 tier: int, decisionDate: string, date: string)
      ensures this.summary == summary && this.excerpt == excerpt && this.text == text
      ensures this.title == title && this.heading == heading && this.sectionRef == sectionRef
      ensures this.tier == tier && this.decisionDate == decisionDate && this.date == date
    {
      this.summary, this.excerpt, this.text := summary, excerpt, text;
      this.title, this.heading, this.sectionRef := title, heading, sectionRef;
      this.tier, this.decisionDate, this.date := tier, decisionDate, date;
      semanticScore, score := 0.0, 0.0;
    }

    function Body(): string {
      var body := if summary != [] then summary else if excerpt != [] then excerpt else text;
      if |body| <= 512 then body else body[..512]
    }

    function Title(): string {
      if title != [] then title else if heading != [] then heading else sectionRef
    }

    function Lexical(query: string): real {
      LexicalScore(Tokens(query, 0), Tokens(Body(), 0), Tokens(Title(), 0))
    }

    function Recency(yearOf: YearOf): real {
      RecencyBonus(if decisionDate != [] then decisionDate else date, yearOf)
    }

    function Authority(yearOf: YearOf): real
      reads this
    {
      AuthorityScore(tier, semanticScore, Recency(yearOf))
    }
  }

  /** The first of the given texts that is not empty, if one is not. */
  ghost predicate FirstFilled(v: string, given: seq<string>) {
    if v == [] then forall k | 0 <= k < |given| :: given[k] == []
    else exists i | 0 <= i < |given| :: given[i] == v && forall k | 0 <= k < i :: given[k] == []
  }

  /** What a candidate is compared by: its summary, excerpt or text, cut to 512 characters, and its title. */
  lemma LexicalIs(c: Candidate, query: string) returns (body: string)
    ensures FirstFilled(body, [c.summary, c.excerpt, c.text])
    ensures FirstFilled(c.Title(), [c.title, c.heading, c.sectionRef])
    ensures c.Body() <= body && |c.Body()| == if |body| < 512 then |body| else 512
    ensures c.Lexical(query) == LexicalScore(Tokens(query, 0), Tokens(c.Body(), 0), Tokens(c.Title(), 0))
  {
    body := if c.summary != [] then c.summary else if c.excerpt != [] then c.excerpt else c.text;
    hide LexicalScore, Tokens;
    FirstOfThree(c.summary, c.excerpt, c.text);
    FirstOfThree(c.title, c.heading, c.sectionRef);
  }

  lemma FirstOfThree(a: string, b: string, c: string)
    ensures FirstFilled(if a != [] then a else if b != [] then b else c, [a, b, c])
  {
    var given := [a, b, c];
    assert given[0] == a && given[1] == b && given[2] == c;
  }

  /** What its score is made of: the reciprocal of the tier, and the bonuses for meaning and date. */
  lemma ScoreIs(c: Candidate, yearOf: YearOf) returns (date: string)
    ensures FirstFilled(date, [c.decisionDate, c.date])
    ensures c.Authority(yearOf) ==
            1.0 / (if c.tier > 1 then c.tier else 1) as real + 0.1 * c.semanticScore + 0.05 * RecencyBonus(date, yearOf)
  {
    hide RecencyBonus;
    date := if c.decisionDate != [] then c.decisionDate else c.date;
    var given := [c.decisionDate, c.date];
    assert given[0] == c.decisionDate && given[1] == c.date;
  }

  type Keyed = (real, Candidate)

  function HighFirst(): (Keyed, Keyed) -> bool {
    (a: Keyed, b: Keyed) => a.0 >= b.0
  }

  function Paired(keys: seq<real>, cs: seq<Candidate>): seq<Keyed>
    requires |keys| == |cs|
  {
    seq(|cs|, i requires 0 <= i < |cs| => (keys[i], cs[i]))
  }

  function Seconds(ps: seq<Keyed>): seq<Candidate> {
    seq(|ps|, i requires 0 <= i < |ps| => ps[i].1)
  }

  /** The candidates by falling key; equal keys keep their order. */
  function ByKey(keys: seq<real>, cs: seq<Candidate>): seq<Candidate>
    requires |keys| == |cs|
  {
    Seconds(Sort(Paired(keys, cs), HighFirst()))
  }

  function SemanticKeys(cs: seq<Candidate>): seq<real>
    reads cs
  {
    seq(|cs|, i requires 0 <= i < |cs| reads cs => cs[i].semanticScore)
  }

  function ScoreKeys(cs: seq<Candidate>): seq<real>
    reads cs
  {
    seq(|cs|, i requires 0 <= i < |cs| reads cs => cs[i].score)
  }

  /** The fallback of the semantic reranker: scores every candidate by words in common and sorts. */
  method SemanticRank(query: string, cs: seq<Candidate>) returns (out: seq<Candidate>)
    modifies cs
    ensures forall c | c in cs :: c.semanticScore == c.Lexical(query) && c.score == old(c.score)
    ensures out == ByKey(SemanticKeys(cs), cs)
  {
    hide LexicalScore, Tokens, Sort;
    for i := 0 to |cs|
      invariant forall j | 0 <= j < i :: cs[j].semanticScore == cs[j].Lexical(query)
      invariant forall c | c in cs :: c.score == old(c.score)
    {
      cs[i].semanticScore := cs[i].Lexical(query);
    }
    out := ByKey(SemanticKeys(cs), cs);
  }

  /** Scores every candidate by authority, meaning and recency, and sorts. */
  method AuthorityRank(cs: seq<Candidate>, yearOf: YearOf) returns (out: seq<Candidate>)
    modifies cs
    ensures forall c | c in cs :: c.score == c.Authority(yearOf) && c.semanticScore == old(c.semanticScore)
    ensures out == ByKey(ScoreKeys(cs), cs)
    ensures forall i, j | 0 <= i < j < |out| :: out[i].score >= out[j].score
    ensures forall k :: OfScore(out, k) == OfScore(cs, k)
  {
    hide AuthorityScore, RecencyBonus, Sort, OfScore;
    for i := 0 to |cs|
      invariant forall j | 0 <= j < i :: cs[j].score == cs[j].Authority(yearOf)
      invariant forall c | c in cs :: c.semanticScore == old(c.semanticScore)
    {
      cs[i].score := cs[i].Authority(yearOf);
    }
    out := ByKey(ScoreKeys(cs), cs);
    ByScoreIsStable(cs);
  }

  // --- what the order means ---------------------------------------------------

  /** No candidate stands below one that must always be under it. */
  ghost predicate TiersStand(out: seq<Candidate>) {
    forall i, j | 0 <= i < j < |out| :: !AlwaysAbove(out[j].tier, out[i].tier)
  }

  lemma KeyedElements(keys: seq<real>, cs: seq<Candidate>)
    requires |keys| == |cs|
    ensures var ps := Sort(Paired(keys, cs), HighFirst());
            && |ps| == |cs| && Ordered(HighFirst(), ps)
            && forall i | 0 <= i < |ps| :: exists k :: 0 <= k < |cs| && ps[i] == (keys[k], cs[k])
  {
    var ps := Sort(Paired(keys, cs), HighFirst());
    var le := HighFirst();
    SortPermutes(Paired(keys, cs), le);
    SortOrdered(Paired(keys, cs), le);
    forall i | 0 <= i < |ps| ensures exists k :: 0 <= k < |cs| && ps[i] == (keys[k], cs[k]) {
      assert ps[i] in multiset(ps);
      assert ps[i] in Paired(keys, cs);
      var k :| 0 <= k < |cs| && Paired(keys, cs)[k] == ps[i];
    }
  }

  lemma SecondsCons(p: Keyed, ps: seq<Keyed>)
    ensures Seconds([p] + ps) == [p.1] + Seconds(ps)
  {
  }

  lemma {:induction false} SecondsInsert(x: Keyed, xs: seq<Keyed>)
    ensures multiset(Seconds(Insert(x, xs, HighFirst()))) == multiset{x.1} + multiset(Seconds(xs))
  {
    hide Seconds;
    SecondsCons(x, xs);
    if xs == [] {
      assert [x] + xs == [x];
    } else {
      assert xs == [xs[0]] + xs[1..];
      SecondsCons(xs[0], xs[1..]);
      SecondsInsert(x, xs[1..]);
      SecondsCons(xs[0], Insert(x, xs[1..], HighFirst()));
    }
  }

  lemma {:induction false} SecondsSort(xs: seq<Keyed>)
    ensures multiset(Seconds(Sort(xs, HighFirst()))) == multiset(Seconds(xs))
  {
    hide Seconds;
    if xs != [] {
      assert xs == [xs[0]] + xs[1..];
      SecondsCons(xs[0], xs[1..]);
      SecondsSort(xs[1..]);
      SecondsInsert(xs[0], Sort(xs[1..], HighFirst()));
    }
  }

  /** Sorting by key keeps the very same candidates, each as often as it was there. */
  lemma ByKeyPermutes(keys: seq<real>, cs: seq<Candidate>)
    requires |keys| == |cs|
    ensures multiset(ByKey(keys, cs)) == multiset(cs)
  {
    hide Sort;
    SecondsSort(Paired(keys, cs));
    assert Seconds(Paired(keys, cs)) == cs;
  }

  /** The candidates with the score, in order. */
  function OfScore(cs: seq<Candidate>, k: real): seq<Candidate>
    reads cs
  {
    if cs == [] then [] else (if cs[0].score == k then [cs[0]] else []) + OfScore(cs[1..], k)
  }

  /** Each candidate is paired with its own score. */
  ghost predicate Scored(ps: seq<Keyed>)
    reads Seconds(ps)
  {
    forall i | 0 <= i < |ps| :: Seconds(ps)[i] == ps[i].1 && ps[i].0 == ps[i].1.score
  }

  lemma {:induction false} TiesAreOfScore(ps: seq<Keyed>, p: Keyed)
    requires Scored(ps)
    ensures OfScore(Seconds(ps), p.0) == Seconds(Ties(ps, p, HighFirst()))
  {
    if ps != [] {
      var rest := ps[1..];
      assert Seconds(ps)[1..] == Seconds(rest);
      forall i | 0 <= i < |rest| ensures Seconds(rest)[i] == rest[i].1 && rest[i].0 == rest[i].1.score {
        assert rest[i] == ps[i + 1] && ps[i + 1].0 == ps[i + 1].1.score;
      }
      TiesAreOfScore(rest, p);
      assert ps[0].0 == ps[0].1.score;
      if ps[0].0 == p.0 { SecondsCons(ps[0], Ties(rest, p, HighFirst())); }
      assert [] + Ties(rest, p, HighFirst()) == Ties(rest, p, HighFirst());
    }
  }

  /** Sorted by score: higher scores first, and candidates with equal scores in the order they had. */
  lemma ByScoreIsStable(cs: seq<Candidate>)
    ensures var out := ByKey(ScoreKeys(cs), cs);
            && (forall i, j | 0 <= i < j < |out| :: out[i].score >= out[j].score)
            && (forall k :: OfScore(out, k) == OfScore(cs, k))
  {
    hide Sort, Ties, OfScore;
    var ps := Paired(ScoreKeys(cs), cs);
    var le := HighFirst();
    var sorted := Sort(ps, le);
    KeyedElements(ScoreKeys(cs), cs);
    assert Seconds(ps) == cs;
    assert Scored(ps);
    forall i | 0 <= i < |sorted| ensures sorted[i].0 == sorted[i].1.score {
      var k :| 0 <= k < |cs| && sorted[i] == (ScoreKeys(cs)[k], cs[k]);
    }
    assert Scored(sorted);
    forall i, j | 0 <= i < j < |sorted| ensures sorted[i].1.score >= sorted[j].1.score {
      assert le(sorted[i], sorted[j]);
    }
    forall k ensures OfScore(Seconds(sorted), k) == OfScore(cs, k) {
      if cs == [] {
        assert Seconds(sorted) == cs;
      } else {
        var p: Keyed := (k, cs[0]);
        SortStable(ps, p, le);
        TiesAreOfScore(ps, p);
        TiesAreOfScore(sorted, p);
      }
    }
  }

  /**
   * Sorted by authority score, with semantic scores between 0 and 1, tiers stand as far as they are always
   * above each other.
   */
  lemma ByScoreTiersStand(cs: seq<Candidate>, yearOf: YearOf)
    requires forall c | c in cs :: c.score == c.Authority(yearOf) && Unit(c.semanticScore)
    ensures TiersStand(ByKey(ScoreKeys(cs), cs))
  {
    hide Sort, AuthorityScore, RecencyBonus;
    var keys, out := ScoreKeys(cs), ByKey(ScoreKeys(cs), cs);
    var ps := Sort(Paired(keys, cs), HighFirst());
    var le := HighFirst();
    KeyedElements(keys, cs);
    forall i, j | 0 <= i < j < |out| ensures !AlwaysAbove(out[j].tier, out[i].tier) {
      assert le(ps[i], ps[j]);
      var k :| 0 <= k < |cs| && ps[i] == (keys[k], cs[k]);
      var l :| 0 <= l < |cs| && ps[j] == (keys[l], cs[l]);
      assert cs[k] in cs && cs[l] in cs;
      assert cs[k].score >= cs[l].score;
      assert Unit(cs[k].Recency(yearOf)) && Unit(cs[l].Recency(yearOf));
    }
  }

  lemma LexicalIsUnit(c: Candidate, query: string)
    ensures Unit(c.Lexical(query))
  {
    hide LexicalScore, Tokens;
    LexicalScoreBounds(Tokens(query, 0), Tokens(c.Body(), 0), Tokens(c.Title(), 0));
  }

  /**
   * Both in turn: the same candidates, and whatever their texts and dates, no candidate of tier 1 below one of
   * another tier, and none of tier 2 below one of tier 3 or later.
   */
  method CompositeRank(query: string, cs: seq<Candidate>, yearOf: YearOf) returns (out: seq<Candidate>)
    modifies cs
    ensures multiset(out) == multiset(cs)
    ensures forall i, j | 0 <= i < j < |out| :: out[i].score >= out[j].score
    ensures TiersStand(out)
    ensures forall i, j | 0 <= i < j < |out| ::
              && (out[j].tier == 1 && out[i].tier >= 1 ==> out[i].tier == 1)
              && (out[j].tier == 2 && out[i].tier >= 1 ==> out[i].tier <= 2)
    ensures forall c | c in cs :: c.semanticScore == c.Lexical(query) && c.score == c.Authority(yearOf)
  {
    hide LexicalScore, Tokens, Sort, AuthorityScore, RecencyBonus, AlwaysAbove, ByKey;
    if cs == [] { return []; }
    var scored := SemanticRank(query, cs);
    ByKeyPermutes(SemanticKeys(cs), cs);
    SameMembers(scored, cs);
    out := AuthorityRank(scored, yearOf);
    ByKeyPermutes(ScoreKeys(scored), scored);
    forall c | c in scored ensures Unit(c.semanticScore) { LexicalIsUnit(c, query); }
    ByScoreTiersStand(scored, yearOf);
    forall i, j | 0 <= i < j < |out|
      ensures out[j].tier == 1 && out[i].tier >= 1 ==> out[i].tier == 1
      ensures out[j].tier == 2 && out[i].tier >= 1 ==> out[i].tier <= 2
    {
      TopTiersStand(out[i].tier);
    }
  }

  lemma SameMembers(a: seq<Candidate>, b: seq<Candidate>)
    requires multiset(a) == multiset(b)
    ensures forall c :: c in a <==> c in b
    ensures forall i | 0 <= i < |a| :: a[i] in b
  {
    assert forall c :: c in a <==> c in multiset(a);
    assert forall c :: c in b <==> c in multiset(b);
  }

  /** Nothing in common with the query, and no date. */
  ghost predicate Worst(c: Candidate, query: string, yearOf: YearOf) {
    Tokens(query, 0) * (Tokens(c.Body(), 0) + Tokens(c.Title(), 0)) == {} && c.Recency(yearOf) == 0.0
  }

  /** The words of the query and no others, all of them in the title too. */
  ghost predicate Perfect(c: Candidate, query: string) {
    Tokens(query, 0) != {} && Tokens(c.Body(), 0) == Tokens(query, 0) <= Tokens(c.Title(), 0)
  }

  /**
   * Texts and dates do reach the ends of the scale: the worst candidate of one tier, against a perfect one of
   * another with the full recency bonus, scores higher exactly if the weights differ by more than 0.15; without
   * dates, by more than 0.1.
   */
  lemma ScaleIsReached(query: string, strong: Candidate, weak: Candidate, yearOf: YearOf)
    requires Worst(strong, query, yearOf) && Perfect(weak, query)
    requires strong.semanticScore == strong.Lexical(query) && weak.semanticScore == weak.Lexical(query)
    ensures weak.Recency(yearOf) == 1.0 ==>
              (strong.Authority(yearOf) > weak.Authority(yearOf) <==> Weight(strong.tier) - Weight(weak.tier) > 0.15)
    ensures weak.Recency(yearOf) == 0.0 ==>
              (strong.Authority(yearOf) > weak.Authority(yearOf) <==> Weight(strong.tier) - Weight(weak.tier) > 0.1)
  {
    hide LexicalScore, Tokens, Weight, RecencyBonus;
    LexicalScoreBounds(Tokens(query, 0), Tokens(strong.Body(), 0), Tokens(strong.Title(), 0));
    PerfectScore(Tokens(query, 0), Tokens(weak.Body(), 0), Tokens(weak.Title(), 0));
  }

  lemma OneWord()
    ensures Tokens("law", 0) == {"law"} && Tokens("", 0) == {}
  {
    var t := "law";
    assert WordEnd(t, 3) == 3 && WordEnd(t, 2) == 3 && WordEnd(t, 1) == 3 && WordEnd(t, 0) == 3;
    assert t[0..3] == t && Lowered(t) == t;
    assert Tokens(t, 3) == {};
    assert Tokens(t, 0) == {Lowered(t[0..3])} + Tokens(t, 3);
  }

  /** Two candidates change places: one of tier 4 that is all about the query, and one of tier 3 that is not. */
  method TierFourAhead(yearOf: YearOf) returns (third: Candidate, fourth: Candidate, out: seq<Candidate>)
    ensures third.tier == 3 && fourth.tier == 4 && out == [fourth, third]
  {
    third := new Candidate("", "", "", "", "", "", 3, "", "");
    fourth := new Candidate("", "", "law", "law", "", "", 4, "", "");
    OneWord();
    hide Tokens, AlwaysAbove, TiersStand, Lowered;
    out := CompositeRank("law", [third, fourth], yearOf);
    assert third in [third, fourth] && fourth in [third, fourth];
    ScaleIsReached("law", third, fourth, yearOf);
    TwoInOrder(third, fourth, out);
  }

  lemma TwoInOrder(a: Candidate, b: Candidate, out: seq<Candidate>)
    requires a != b && multiset(out) == multiset([a, b]) && b.score > a.score
    requires forall i, j | 0 <= i < j < |out| :: out[i].score >= out[j].score
    ensures out == [b, a]
  {
    assert |multiset(out)| == 2;
    assert out == [out[0], out[1]];
    assert out[0] in multiset(out) && out[1] in multiset(out);
    assert multiset([a, b])[a] == 1;
  }
}
