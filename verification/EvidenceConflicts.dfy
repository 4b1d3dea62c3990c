/** Authorities of different rank on one topic. */
module EvidenceConflicts {
  import opened Wrappers
  import opened Ontology
  import opened Text
  import opened Evidence

  /** `str.lower`, which the program applies to topics. */
  type Fold = string -> string

  function TopicText(s: EvidenceSpan): string {
    if s.place.Some? && s.place.value != [] then s.place.value
    else if s.citation.Some? && s.citation.value != [] then s.citation.value
    else if s.title.Some? then s.title.value
    else ""
  }

  function TopicOf(s: EvidenceSpan, fold: Fold): string {
    fold(Strip(TopicText(s)))
  }

  /** The spans on a topic, in order. */
  function Group(spans: seq<EvidenceSpan>, topic: string, fold: Fold): seq<EvidenceSpan> {
    if spans == [] then []
    else
      var n := |spans| - 1;
      Group(spans[..n], topic, fold) + (if TopicOf(spans[n], fold) == topic then [spans[n]] else [])
  }

  /** The topics, in order of first mention. */
  function Topics(spans: seq<EvidenceSpan>, fold: Fold): seq<string> {
    if spans == [] then []
    else
      var n := |spans| - 1;
      var older, k := Topics(spans[..n], fold), TopicOf(spans[n], fold);
      older + (if k != [] && k !in older then [k] else [])
  }

  function InsertTier(t: nat, ts: seq<nat>): seq<nat> {
    if ts == [] || t < ts[0] then [t] + ts
    else if t == ts[0] then ts
    else [ts[0]] + InsertTier(t, ts[1..])
  }

  /** The distinct tiers of the spans, ascending. */
  function TierList(spans: seq<EvidenceSpan>): seq<nat> {
    if spans == [] then [] else InsertTier(spans[|spans| - 1].tier, TierList(spans[..|spans| - 1]))
  }

  function Decimals(ns: seq<nat>): seq<string> {
    if ns == [] then [] else [Decimal(ns[0])] + Decimals(ns[1..])
  }

  function MarkersOn(spans: seq<EvidenceSpan>): seq<string> {
    seq(|spans|, i requires 0 <= i < |spans| => spans[i].marker)
  }

  function ConflictOn(topic: string, group: seq<EvidenceSpan>): Option<Conflict> {
    if |group| < 2 then None
    else
      var tiers := TierList(group);
      if |tiers| <= 1 || tiers[0] > HIGH_COURT then None
      else
        Some(Conflict(
          topic, tiers,
          "Multiple authorities on '" + topic + "' across tiers [" + Join(", ", Decimals(tiers))
          + "]; the lower (stronger) tier binds.",
          MarkersOn(group)))
  }

  function ConflictsOn(spans: seq<EvidenceSpan>, topics: seq<string>, fold: Fold): seq<Conflict> {
    if topics == [] then []
    else
      var n := |topics| - 1;
      var c := ConflictOn(topics[n], Group(spans, topics[n], fold));
      ConflictsOn(spans, topics[..n], fold) + (if c.Some? then [c.value] else [])
  }

  /** The groups of the topics mentioned so far. */
  ghost predicate Grouped(groups: map<string, seq<EvidenceSpan>>, topics: seq<string>, spans: seq<EvidenceSpan>,
                          fold: Fold) {
    && topics == Topics(spans, fold) && [] !in groups
    && (forall k :: k in groups <==> k in topics)
    && forall k | k in groups :: groups[k] == Group(spans, k, fold)
  }

  function Joined(groups: map<string, seq<EvidenceSpan>>, k: string, s: EvidenceSpan): map<string, seq<EvidenceSpan>> {
    groups[k := (if k in groups then groups[k] else []) + [s]]
  }

  lemma GroupedOn(groups: map<string, seq<EvidenceSpan>>, topics: seq<string>, spans: seq<EvidenceSpan>,
                  s: EvidenceSpan, fold: Fold)
    requires Grouped(groups, topics, spans, fold)
    ensures var k := TopicOf(s, fold);
            if k == [] then Grouped(groups, topics, spans + [s], fold)
            else Grouped(Joined(groups, k, s), topics + (if k in groups then [] else [k]), spans + [s], fold)
  {
    hide TopicOf;
    assert (spans + [s])[..|spans|] == spans;
    var k := TopicOf(s, fold);
    if k != [] { NoGroupYet(spans, k, fold); }
  }

  /** Groups the spans by topic, then reports the topics on which a binding authority and a weaker one meet. */
  method DetectConflicts(spans: seq<EvidenceSpan>, fold: Fold) returns (conflicts: seq<Conflict>)
    ensures conflicts == ConflictsOn(spans, Topics(spans, fold), fold)
  {
    hide TopicOf, ConflictOn, Group, Topics;
    var groups: map<string, seq<EvidenceSpan>> := map[];
    var topics: seq<string> := [];
    NothingGrouped(fold);
    for i := 0 to |spans|
      invariant Grouped(groups, topics, spans[..i], fold)
    {
      assert spans[..i + 1] == spans[..i] + [spans[i]];
      var k := TopicOf(spans[i], fold);
      GroupedOn(groups, topics, spans[..i], spans[i], fold);
      if k != [] {
        if k !in groups { topics := topics + [k]; }
        groups := Joined(groups, k, spans[i]);
      }
    }
    assert spans[..|spans|] == spans;
    conflicts := [];
    for i := 0 to |topics|
      invariant conflicts == ConflictsOn(spans, topics[..i], fold)
    {
      assert topics[..i + 1][..i] == topics[..i];
      var c := ConflictOn(topics[i], groups[topics[i]]);
      if c.Some? { conflicts := conflicts + [c.value]; }
    }
    assert topics[..|topics|] == topics;
  }

  lemma NothingGrouped(fold: Fold)
    ensures Grouped(map[], [], [], fold)
  {
  }

  lemma {:induction false} NoGroupYet(spans: seq<EvidenceSpan>, k: string, fold: Fold)
    requires k != []
    ensures k !in Topics(spans, fold) ==> Group(spans, k, fold) == []
  {
    hide TopicOf;
    if spans != [] { NoGroupYet(spans[..|spans| - 1], k, fold); }
  }

  // ---------------------------------------------------------------------------
  // Which conflicts are reported
  // ---------------------------------------------------------------------------

  predicate Strict(ts: seq<nat>) {
    forall i, j | 0 <= i < j < |ts| :: ts[i] < ts[j]
  }

  lemma {:induction false} InsertTierKeeps(t: nat, ts: seq<nat>)
    requires Strict(ts)
    ensures Strict(InsertTier(t, ts)) && InsertTier(t, ts) != []
    ensures forall x :: x in InsertTier(t, ts) <==> x == t || x in ts
  {
    if ts != [] && t > ts[0] {
      InsertTierKeeps(t, ts[1..]);
      assert ts == [ts[0]] + ts[1..];
      var rest := InsertTier(t, ts[1..]);
      forall j | 0 <= j < |rest| ensures ts[0] < rest[j] {
        assert rest[j] in rest;
        assert rest[j] == t || rest[j] in ts[1..];
      }
    } else if ts != [] {
      assert forall x | x in ts :: ts[0] <= x;
    }
  }

  lemma {:induction false} TierListIs(spans: seq<EvidenceSpan>)
    ensures Strict(TierList(spans))
    ensures forall t :: t in TierList(spans) <==> exists s :: s in spans && s.tier == t
  {
    if spans != [] {
      var n := |spans| - 1;
      TierListIs(spans[..n]);
      InsertTierKeeps(spans[n].tier, TierList(spans[..n]));
      assert spans == spans[..n] + [spans[n]];
      forall t ensures t in TierList(spans) <==> exists s :: s in spans && s.tier == t {
        if t in TierList(spans[..n]) {
          var s :| s in spans[..n] && s.tier == t;
          assert s in spans;
        }
        if exists s :: s in spans && s.tier == t {
          var s :| s in spans && s.tier == t;
          assert s == spans[n] || s in spans[..n];
        }
      }
    }
  }

  lemma {:induction false} GroupIs(spans: seq<EvidenceSpan>, k: string, fold: Fold)
    ensures forall s :: s in Group(spans, k, fold) <==> s in spans && TopicOf(s, fold) == k
  {
    hide TopicOf;
    if spans != [] {
      var n := |spans| - 1;
      GroupIs(spans[..n], k, fold);
      assert spans == spans[..n] + [spans[n]];
    }
  }

  lemma {:induction false} TopicsAre(spans: seq<EvidenceSpan>, fold: Fold)
    ensures forall k :: k in Topics(spans, fold) <==> k != [] && exists s :: s in spans && TopicOf(s, fold) == k
    ensures forall i, j | 0 <= i < j < |Topics(spans, fold)| :: Topics(spans, fold)[i] != Topics(spans, fold)[j]
  {
    hide TopicOf;
    if spans != [] {
      var n := |spans| - 1;
      TopicsAre(spans[..n], fold);
      assert spans == spans[..n] + [spans[n]];
      forall k ensures k in Topics(spans, fold) <==> k != [] && exists s :: s in spans && TopicOf(s, fold) == k {
        if k in Topics(spans[..n], fold) {
          var s :| s in spans[..n] && TopicOf(s, fold) == k;
          assert s in spans;
        }
        if k != [] && exists s :: s in spans && TopicOf(s, fold) == k {
          var s :| s in spans && TopicOf(s, fold) == k;
          assert s == spans[n] || s in spans[..n];
        }
      }
    }
  }

  /** A topic is contested if two spans on it differ in tier, and the stronger one is at least a High Court's. */
  ghost predicate Contested(spans: seq<EvidenceSpan>, topic: string, fold: Fold) {
    && topic != []
    && exists a, b :: a in spans && b in spans && TopicOf(a, fold) == topic && TopicOf(b, fold) == topic
         && a.tier < b.tier && a.tier <= HIGH_COURT
  }

  lemma TwoInGroup(group: seq<EvidenceSpan>, a: EvidenceSpan, b: EvidenceSpan)
    requires a in group && b in group && a != b
    ensures |group| >= 2
  {
  }

  lemma TopicConflicts(spans: seq<EvidenceSpan>, k: string, fold: Fold)
    requires k != []
    ensures ConflictOn(k, Group(spans, k, fold)).Some? <==> Contested(spans, k, fold)
  {
    hide TopicOf, TierList, Group, MarkersOn, Decimals, Join;
    var group := Group(spans, k, fold);
    var tiers := TierList(group);
    GroupIs(spans, k, fold);
    TierListIs(group);
    if Contested(spans, k, fold) {
      var a, b :| a in spans && b in spans && TopicOf(a, fold) == k && TopicOf(b, fold) == k && a.tier < b.tier
        && a.tier <= HIGH_COURT;
      TwoInGroup(group, a, b);
      assert a.tier in tiers && b.tier in tiers;
    }
    if ConflictOn(k, group).Some? {
      assert tiers[0] in tiers && tiers[1] in tiers;
      var a :| a in group && a.tier == tiers[0];
      var b :| b in group && b.tier == tiers[1];
      assert a in spans && b in spans && a.tier < b.tier;
    }
  }

  /** The places of the spans on the topic, in order. */
  ghost predicate OnTopic(spans: seq<EvidenceSpan>, topic: string, at: seq<nat>, fold: Fold) {
    && (forall n, m | 0 <= n < m < |at| :: at[n] < at[m])
    && forall i :: i in at <==> 0 <= i < |spans| && TopicOf(spans[i], fold) == topic
  }

  ghost predicate HasTier(spans: seq<EvidenceSpan>, topic: string, t: nat, fold: Fold) {
    exists s :: s in spans && TopicOf(s, fold) == topic && s.tier == t
  }

  /** The report names the topic, the tiers met on it in ascending order, and the markers of its spans in order. */
  ghost predicate IsReport(spans: seq<EvidenceSpan>, c: Conflict, fold: Fold) {
    && (exists at: seq<nat> :: OnTopic(spans, c.topic, at, fold) && |c.markers| == |at|
          && forall n | 0 <= n < |at| :: at[n] < |spans| && c.markers[n] == spans[at[n]].marker)
    && (forall i, j | 0 <= i < j < |c.tiers| :: c.tiers[i] < c.tiers[j])
    && (forall t :: t in c.tiers <==> HasTier(spans, c.topic, t, fold))
    && c.description == "Multiple authorities on '" + c.topic + "' across tiers [" + Join(", ", Decimals(c.tiers))
                        + "]; the lower (stronger) tier binds."
  }

  /** The conflicts report the contested ones of the topics, each once. */
  ghost predicate Reports(cs: seq<Conflict>, spans: seq<EvidenceSpan>, topics: seq<string>, fold: Fold) {
    && (forall c | c in cs :: IsReport(spans, c, fold) && c.topic in topics && Contested(spans, c.topic, fold))
    && (forall k | k in topics && Contested(spans, k, fold) :: exists c :: c in cs && c.topic == k)
    && forall i, j | 0 <= i < j < |cs| :: cs[i].topic != cs[j].topic
  }

  lemma OneMoreTopic(cs: seq<Conflict>, spans: seq<EvidenceSpan>, topics: seq<string>, k: string, fold: Fold)
    requires Reports(cs, spans, topics, fold) && !Contested(spans, k, fold)
    ensures Reports(cs, spans, topics + [k], fold)
  {
    hide Contested, IsReport;
  }

  lemma OneMoreReport(cs: seq<Conflict>, spans: seq<EvidenceSpan>, topics: seq<string>, c: Conflict, fold: Fold)
    requires Reports(cs, spans, topics, fold) && Contested(spans, c.topic, fold) && c.topic !in topics
             && IsReport(spans, c, fold)
    ensures Reports(cs + [c], spans, topics + [c.topic], fold)
  {
    hide Contested, IsReport;
    var all := cs + [c];
    forall k | k in topics + [c.topic] && Contested(spans, k, fold) ensures exists d :: d in all && d.topic == k {
      if k == c.topic {
        assert c in all;
      } else {
        var d :| d in cs && d.topic == k;
        assert d in all;
      }
    }
    forall i, j | 0 <= i < j < |all| ensures all[i].topic != all[j].topic {
      assert all[i] in cs;
    }
  }

  lemma OneMoreOnTopic(spans: seq<EvidenceSpan>, s: EvidenceSpan, k: string, at: seq<nat>, fold: Fold)
    requires OnTopic(spans, k, at, fold)
    ensures OnTopic(spans + [s], k, if TopicOf(s, fold) == k then at + [|spans|] else at, fold)
  {
    hide TopicOf;
    var n, all := |spans|, at + [|spans|];
    assert all[|at|] == n && forall i :: i in all <==> i in at || i == n;
    assert forall i :: i in at ==> i < n;
    assert forall m | 0 <= m < |at| :: at[m] in at;
  }

  lemma GroupSnoc(spans: seq<EvidenceSpan>, s: EvidenceSpan, k: string, fold: Fold)
    ensures Group(spans + [s], k, fold) == Group(spans, k, fold) + (if TopicOf(s, fold) == k then [s] else [])
  {
    hide TopicOf;
    assert (spans + [s])[..|spans|] == spans;
  }

  ghost predicate Picks(spans: seq<EvidenceSpan>, at: seq<nat>, group: seq<EvidenceSpan>) {
    |at| == |group| && forall n | 0 <= n < |at| :: at[n] < |spans| && group[n] == spans[at[n]]
  }

  lemma OneMorePick(spans: seq<EvidenceSpan>, s: EvidenceSpan, at: seq<nat>, group: seq<EvidenceSpan>)
    requires Picks(spans, at, group)
    ensures Picks(spans + [s], at, group) && Picks(spans + [s], at + [|spans|], group + [s])
  {
  }

  lemma {:induction false} GroupAt(spans: seq<EvidenceSpan>, k: string, fold: Fold) returns (at: seq<nat>)
    ensures OnTopic(spans, k, at, fold) && Picks(spans, at, Group(spans, k, fold))
  {
    hide TopicOf;
    if spans == [] {
      at := [];
    } else {
      hide OnTopic, Group, Picks;
      var n := |spans| - 1;
      var before := GroupAt(spans[..n], k, fold);
      assert spans == spans[..n] + [spans[n]];
      OneMoreOnTopic(spans[..n], spans[n], k, before, fold);
      GroupSnoc(spans[..n], spans[n], k, fold);
      OneMorePick(spans[..n], spans[n], before, Group(spans[..n], k, fold));
      if TopicOf(spans[n], fold) == k {
        at := before + [n];
      } else {
        at := before;
        assert Group(spans[..n], k, fold) + [] == Group(spans[..n], k, fold);
      }
    }
  }

  lemma ConflictIsReport(spans: seq<EvidenceSpan>, k: string, fold: Fold)
    ensures var c := ConflictOn(k, Group(spans, k, fold));
            c.Some? ==> c.value.topic == k && IsReport(spans, c.value, fold)
  {
    TierListIs(Group(spans, k, fold));
    GroupIs(spans, k, fold);
    hide TierList, Group, Decimals, Join, TopicOf, OnTopic;
    var at := GroupAt(spans, k, fold);
    forall t ensures t in TierList(Group(spans, k, fold)) <==> HasTier(spans, k, t, fold) {
      if HasTier(spans, k, t, fold) {
        var s :| s in spans && TopicOf(s, fold) == k && s.tier == t;
        assert s in Group(spans, k, fold);
      }
    }
  }

  lemma {:induction false} ReportsAre(spans: seq<EvidenceSpan>, topics: seq<string>, fold: Fold)
    requires [] !in topics && NoRepeats(topics)
    ensures Reports(ConflictsOn(spans, topics, fold), spans, topics, fold)
    decreases |topics|
  {
    hide Contested, IsReport, ConflictOn, Group;
    if topics != [] {
      var n := |topics| - 1;
      assert topics == topics[..n] + [topics[n]];
      assert topics[n] in topics && topics[n] !in topics[..n] && forall k | k in topics[..n] :: k in topics;
      ReportsAre(spans, topics[..n], fold);
      TopicConflicts(spans, topics[n], fold);
      ConflictIsReport(spans, topics[n], fold);
      hide Reports;
      var older, c := ConflictsOn(spans, topics[..n], fold), ConflictOn(topics[n], Group(spans, topics[n], fold));
      if c.Some? {
        OneMoreReport(older, spans, topics[..n], c.value, fold);
      } else {
        OneMoreTopic(older, spans, topics[..n], topics[n], fold);
        assert older + [] == older;
      }
    }
  }

  /**
   * The contested topics are reported, each once, with the markers of all its spans and all their tiers;
   * nothing else is.
   */
  lemma ConflictsAreExact(spans: seq<EvidenceSpan>, fold: Fold)
    ensures var cs := ConflictsOn(spans, Topics(spans, fold), fold);
            && (forall k :: Contested(spans, k, fold) <==> exists c :: c in cs && c.topic == k)
            && (forall c | c in cs :: IsReport(spans, c, fold))
            && forall i, j | 0 <= i < j < |cs| :: cs[i].topic != cs[j].topic
  {
    hide TopicOf, ConflictsOn, Topics, IsReport;
    TopicsAre(spans, fold);
    ReportsAre(spans, Topics(spans, fold), fold);
    forall k | Contested(spans, k, fold) ensures k in Topics(spans, fold) {
      assert exists s :: s in spans && TopicOf(s, fold) == k;
    }
  }
}
