/** Python's stable `sorted` / `list.sort`, as insertion into a sorted tail. */
module StableSort {
  /** A comparison that relates every two of the values and is transitive on them; ties are allowed. */
  ghost predicate TotalPreorder<T>(le: (T, T) -> bool, xs: seq<T>) {
    && (forall x, y | x in xs && y in xs :: le(x, y) || le(y, x))
    && (forall x, y, z | x in xs && y in xs && z in xs :: le(x, y) && le(y, z) ==> le(x, z))
  }

  ghost predicate Ordered<T>(le: (T, T) -> bool, xs: seq<T>) {
    forall i, j :: 0 <= i < j < |xs| ==> le(xs[i], xs[j])
  }

  function Insert<T>(x: T, xs: seq<T>, le: (T, T) -> bool): seq<T> {
    if xs == [] then [x]
    else if le(x, xs[0]) then [x] + xs
    else [xs[0]] + Insert(x, xs[1..], le)
  }

  function Sort<T>(xs: seq<T>, le: (T, T) -> bool): seq<T> {
    if xs == [] then [] else Insert(xs[0], Sort(xs[1..], le), le)
  }

  lemma {:induction false} InsertPermutes<T>(x: T, xs: seq<T>, le: (T, T) -> bool)
    ensures multiset(Insert(x, xs, le)) == multiset{x} + multiset(xs)
  {
    if xs == [] {
    } else {
      assert xs == [xs[0]] + xs[1..];
      if !le(x, xs[0]) { InsertPermutes(x, xs[1..], le); }
    }
  }

  /** Sorting loses nothing and invents nothing. */
  lemma {:induction false} SortPermutes<T>(xs: seq<T>, le: (T, T) -> bool)
    ensures multiset(Sort(xs, le)) == multiset(xs)
    ensures |Sort(xs, le)| == |xs|
  {
    if xs == [] {
    } else {
      SortPermutes(xs[1..], le);
      InsertPermutes(xs[0], Sort(xs[1..], le), le);
      assert xs == [xs[0]] + xs[1..];
    }
    assert |multiset(Sort(xs, le))| == |multiset(xs)|;
  }

  lemma SortElements<T>(xs: seq<T>, le: (T, T) -> bool)
    ensures |Sort(xs, le)| == |xs|
    ensures forall x :: x in Sort(xs, le) <==> x in xs
  {
    SortPermutes(xs, le);
    assert forall x :: x in Sort(xs, le) <==> x in multiset(Sort(xs, le));
    assert forall x :: x in xs <==> x in multiset(xs);
  }

  lemma {:induction false} InsertOrdered<T>(x: T, xs: seq<T>, le: (T, T) -> bool)
    requires TotalPreorder(le, [x] + xs) && Ordered(le, xs)
    ensures Ordered(le, Insert(x, xs, le))
  {
    assert x in [x] + xs && forall y | y in xs :: y in [x] + xs;
    if xs == [] {
    } else if le(x, xs[0]) {
      forall j | 0 <= j < |xs| ensures le(x, xs[j]) {
        if j > 0 { assert le(xs[0], xs[j]); }
      }
    } else {
      assert forall y | y in [x] + xs[1..] :: y in [x] + xs;
      InsertOrdered(x, xs[1..], le);
      var rest := Insert(x, xs[1..], le);
      InsertPermutes(x, xs[1..], le);
      forall j | 0 <= j < |rest| ensures le(xs[0], rest[j]) {
        assert rest[j] in multiset(rest);
        if rest[j] != x {
          assert rest[j] in multiset(xs[1..]);
          var k :| 0 <= k < |xs[1..]| && xs[1..][k] == rest[j];
          assert le(xs[0], xs[k + 1]);
        }
      }
    }
  }

  lemma TailWithin<T>(xs: seq<T>, le: (T, T) -> bool)
    requires xs != []
    ensures forall y | y in Sort(xs[1..], le) :: y in xs
  {
    hide Sort;
    var tail := Sort(xs[1..], le);
    SortPermutes(xs[1..], le);
    forall y | y in tail ensures y in xs {
      assert y in multiset(tail);
      assert y in xs[1..];
    }
  }

  lemma {:induction false} SortOrdered<T>(xs: seq<T>, le: (T, T) -> bool)
    requires TotalPreorder(le, xs)
    ensures Ordered(le, Sort(xs, le))
  {
    if xs == [] {
    } else {
      var tail := Sort(xs[1..], le);
      TailWithin(xs, le);
      assert forall y | y in [xs[0]] + tail :: y in xs;
      SortOrdered(xs[1..], le);
      InsertOrdered(xs[0], tail, le);
    }
  }

  /** The elements that tie with `k`, in their order of appearance. */
  function Ties<T>(xs: seq<T>, k: T, le: (T, T) -> bool): seq<T> {
    if xs == [] then []
    else (if le(xs[0], k) && le(k, xs[0]) then [xs[0]] else []) + Ties(xs[1..], k, le)
  }

  lemma {:induction false} InsertStable<T>(x: T, xs: seq<T>, k: T, le: (T, T) -> bool)
    requires TotalPreorder(le, [k, x] + xs)
    ensures Ties(Insert(x, xs, le), k, le) == Ties([x] + xs, k, le)
  {
    assert ([x] + xs)[1..] == xs;
    if xs == [] || le(x, xs[0]) {
      assert Insert(x, xs, le) == [x] + xs;
    } else {
      var all := [k, x] + xs;
      assert k in all && x in all && forall y | y in xs :: y in all;
      assert forall y | y in [k, x] + xs[1..] :: y in all;
      InsertStable(x, xs[1..], k, le);
      assert ([x] + xs[1..])[1..] == xs[1..];
      assert Insert(x, xs, le)[1..] == Insert(x, xs[1..], le);
    }
  }

  /** Elements with equal keys keep their relative order. */
  lemma {:induction false} SortStable<T>(xs: seq<T>, k: T, le: (T, T) -> bool)
    requires TotalPreorder(le, [k] + xs)
    ensures Ties(Sort(xs, le), k, le) == Ties(xs, k, le)
  {
    if xs == [] {
    } else {
      var tail := Sort(xs[1..], le);
      TailWithin(xs, le);
      assert k in [k] + xs && forall y | y in xs :: y in [k] + xs;
      assert forall y | y in [k] + xs[1..] :: y in [k] + xs;
      assert forall y | y in [k, xs[0]] + tail :: y in [k] + xs;
      SortStable(xs[1..], k, le);
      InsertStable(xs[0], tail, k, le);
      assert ([xs[0]] + tail)[1..] == tail;
    }
  }

  /** A list already in order is left alone. */
  lemma {:induction false} SortFixed<T>(xs: seq<T>, le: (T, T) -> bool)
    requires Ordered(le, xs)
    ensures Sort(xs, le) == xs
  {
    if xs == [] {
    } else {
      SortFixed(xs[1..], le);
      if |xs| > 1 { assert le(xs[0], xs[1]); }
    }
  }

  // --- where everything goes --------------------------------------------------

  /** `ys` lists `xs` by the places given, each place once. */
  ghost predicate Lists<T>(xs: seq<T>, at: seq<nat>, ys: seq<T>) {
    && |at| == |ys| == |xs| && (forall n | 0 <= n < |at| :: at[n] < |xs| && ys[n] == xs[at[n]])
    && (forall n, m | 0 <= n < m < |at| :: at[n] != at[m])
    && forall i | 0 <= i < |xs| :: i in at
  }

  /** In the order of the comparison, ties by place. */
  ghost predicate GoesBefore<T>(le: (T, T) -> bool, xs: seq<T>, i: nat, j: nat)
    requires i < |xs| && j < |xs|
  {
    le(xs[i], xs[j]) && (le(xs[j], xs[i]) ==> i < j)
  }

  ghost predicate InPlace<T>(le: (T, T) -> bool, xs: seq<T>, at: seq<nat>) {
    && (forall n | 0 <= n < |at| :: at[n] < |xs|)
    && forall n, m | 0 <= n < m < |at| :: GoesBefore(le, xs, at[n], at[m])
  }

  lemma {:induction false} InsertPlace<T>(x: T, ys: seq<T>, le: (T, T) -> bool) returns (p: nat)
    ensures p <= |ys| && Insert(x, ys, le) == ys[..p] + [x] + ys[p..]
    ensures (forall i | 0 <= i < p :: !le(x, ys[i])) && (p < |ys| ==> le(x, ys[p]))
  {
    if ys == [] || le(x, ys[0]) {
      p := 0;
    } else {
      var q := InsertPlace(x, ys[1..], le);
      p := q + 1;
      assert [ys[0]] + (ys[1..][..q] + [x] + ys[1..][q..]) == ys[..p] + [x] + ys[p..];
    }
  }

  /** The places of the tail, seen from the whole list, with the head at `p` among them. */
  ghost function Spliced(at: seq<nat>, p: nat): seq<nat> {
    seq(|at| + 1, n requires 0 <= n < |at| + 1 =>
      if n < p && n < |at| then at[n] + 1 else if n <= p || n == 0 then 0 else at[n - 1] + 1)
  }

  lemma SplicedLists<T>(x: T, rest: seq<T>, at: seq<nat>, ys: seq<T>, p: nat)
    requires Lists(rest, at, ys) && p <= |ys|
    ensures Lists([x] + rest, Spliced(at, p), ys[..p] + [x] + ys[p..])
  {
    var all, xs, zs := Spliced(at, p), [x] + rest, ys[..p] + [x] + ys[p..];
    forall n | 0 <= n < |all| ensures all[n] < |xs| && zs[n] == xs[all[n]] {
      if n < p { assert ys[n] == rest[at[n]]; }
      if n > p { assert ys[n - 1] == rest[at[n - 1]]; }
    }
    SplicedAreAll(|rest|, at, p);
    SplicedDiffer(at, p);
  }

  lemma SplicedAreAll(k: nat, at: seq<nat>, p: nat)
    requires p <= |at| && forall i | 0 <= i < k :: i in at
    ensures forall i | 0 <= i < k + 1 :: i in Spliced(at, p)
  {
    var all := Spliced(at, p);
    forall i | 0 <= i < k + 1 ensures i in all {
      if i == 0 {
        assert all[p] == 0;
      } else {
        assert i - 1 in at;
        var n :| 0 <= n < |at| && at[n] == i - 1;
        assert all[if n < p then n else n + 1] == i;
      }
    }
  }

  lemma SplicedDiffer(at: seq<nat>, p: nat)
    requires p <= |at| && forall n, m | 0 <= n < m < |at| :: at[n] != at[m]
    ensures forall n, m | 0 <= n < m < |at| + 1 :: Spliced(at, p)[n] != Spliced(at, p)[m]
  {
  }

  /** The head goes before what it is inserted in front of, and behind the rest. */
  lemma HeadInPlace<T>(x: T, rest: seq<T>, at: seq<nat>, ys: seq<T>, p: nat, le: (T, T) -> bool, n: nat)
    requires TotalPreorder(le, [x] + rest) && Lists(rest, at, ys) && InPlace(le, rest, at) && p <= |ys| && n < |at|
    requires (forall i | 0 <= i < p :: !le(x, ys[i])) && (p < |ys| ==> le(x, ys[p]))
    ensures n < p ==> GoesBefore(le, [x] + rest, at[n] + 1, 0)
    ensures n >= p ==> GoesBefore(le, [x] + rest, 0, at[n] + 1)
  {
    var xs := [x] + rest;
    assert ys[n] == rest[at[n]] == xs[at[n] + 1] && xs[0] == x;
    assert x in xs && ys[n] in xs;
    if n > p {
      assert GoesBefore(le, rest, at[p], at[n]);
      assert ys[p] == rest[at[p]] == xs[at[p] + 1];
      assert ys[p] in xs;
    }
  }

  lemma SplicedInPlace<T>(x: T, rest: seq<T>, at: seq<nat>, ys: seq<T>, p: nat, le: (T, T) -> bool)
    requires TotalPreorder(le, [x] + rest) && Lists(rest, at, ys) && InPlace(le, rest, at) && p <= |ys|
    requires (forall i | 0 <= i < p :: !le(x, ys[i])) && (p < |ys| ==> le(x, ys[p]))
    ensures InPlace(le, [x] + rest, Spliced(at, p))
  {
    var all, xs := Spliced(at, p), [x] + rest;
    forall n | 0 <= n < |at|
      ensures (n < p ==> GoesBefore(le, xs, at[n] + 1, 0)) && (n >= p ==> GoesBefore(le, xs, 0, at[n] + 1))
    {
      HeadInPlace(x, rest, at, ys, p, le, n);
    }
    forall a, b | 0 <= a < b < |at| ensures GoesBefore(le, xs, at[a] + 1, at[b] + 1) {
      assert GoesBefore(le, rest, at[a], at[b]);
    }
    hide GoesBefore, TotalPreorder;
  }

  /** Sorting puts everything in its place: by the comparison, and where that does not decide, as it was. */
  lemma {:induction false} SortPlaces<T>(xs: seq<T>, le: (T, T) -> bool) returns (at: seq<nat>)
    requires TotalPreorder(le, xs)
    ensures Lists(xs, at, Sort(xs, le)) && InPlace(le, xs, at)
  {
    if xs == [] {
      at := [];
    } else {
      var ys := Sort(xs[1..], le);
      assert forall y | y in xs[1..] :: y in xs;
      var before := SortPlaces(xs[1..], le);
      var p := InsertPlace(xs[0], ys, le);
      at := Spliced(before, p);
      assert xs == [xs[0]] + xs[1..];
      hide Lists, InPlace, TotalPreorder, Sort;
      SplicedLists(xs[0], xs[1..], before, ys, p);
      SplicedInPlace(xs[0], xs[1..], before, ys, p, le);
      assert Sort(xs, le) == Insert(xs[0], ys, le) by { SortStep(xs, le); }
    }
  }

  lemma SortStep<T>(xs: seq<T>, le: (T, T) -> bool)
    requires xs != []
    ensures Sort(xs, le) == Insert(xs[0], Sort(xs[1..], le), le)
  {
  }
}
