/**
 * The trace bus as a value: per-trace history, the queues handed to subscribers, and when each trace
 * was last touched. A queue is known by its handle.
 */
module TraceModel {
  import opened Wrappers

  datatype Step = Step(stage: string, status: string, worker: string, message: Option<string>, details: map<string,
    string>)

  datatype Event = Event(ts: real, step: Step)

  datatype Settings = Settings(historySize: nat, maxAge: real)

  datatype Bus = Bus(
    history: map<string, seq<Event>>, subscribers: map<string, seq<nat>>, lastTouch: map<string, real>,
    queues: map<nat, seq<Event>>, next: nat)

  const CAPACITY: nat := 1024

  const EMPTY := Bus(map[], map[], map[], map[], 0)

  /** The clock is read once for the time stamp, once for the sweep and once for the touch. */
  datatype Op =
    | Publish(trace: string, step: Step, stamp: real, swept: real, touched: real)
    | Subscribe(trace: string)
    | Unsubscribe(trace: string, q: nat)
    | Get(q: nat)

  function HistoryOf(b: Bus, trace: string): seq<Event> {
    if trace in b.history then b.history[trace] else []
  }

  function SubscribersOf(b: Bus, trace: string): seq<nat> {
    if trace in b.subscribers then b.subscribers[trace] else []
  }

  function QueueOf(b: Bus, q: nat): seq<Event> {
    if q in b.queues then b.queues[q] else []
  }

  function Expired(b: Bus, cutoff: real): set<string> {
    set t | t in b.lastTouch && b.lastTouch[t] < cutoff
  }

  /** Old traces lose their history; their subscribers stay. */
  function Collected(b: Bus, cutoff: real): Bus {
    b.(history := b.history - Expired(b, cutoff), lastTouch := b.lastTouch - Expired(b, cutoff))
  }

  /** A bounded deque drops its oldest element when it is full. */
  function Appended(h: seq<Event>, e: Event, size: nat): seq<Event> {
    if |h| < size then h + [e] else if size == 0 then [] else h[|h| - size + 1..] + [e]
  }

  /** A queue that is full takes nothing more. */
  function Offered(queue: seq<Event>, e: Event): seq<Event> {
    if |queue| < CAPACITY then queue + [e] else queue
  }

  function Delivered(queues: map<nat, seq<Event>>, qs: seq<nat>, e: Event): map<nat, seq<Event>> {
    if qs == [] then queues
    else
      var n := |qs| - 1;
      var m := Delivered(queues, qs[..n], e);
      if qs[n] in m then m[qs[n] := Offered(m[qs[n]], e)] else m
  }

  /** The list without the first occurrence of `q`. */
  function Removed(qs: seq<nat>, q: nat): seq<nat> {
    if qs == [] then [] else if qs[0] == q then qs[1..] else [qs[0]] + Removed(qs[1..], q)
  }

  /** A history that does not fit a queue makes `subscribe` fail; nothing is registered then. */
  predicate Fits(b: Bus, trace: string) {
    |HistoryOf(b, trace)| <= CAPACITY
  }

  function After(b: Bus, op: Op, cfg: Settings): Bus {
    match op
    case Publish(trace, step, stamp, swept, touched) =>
      var e := Event(stamp, step);
      var c := Collected(b, swept - cfg.maxAge);
      c.(history := c.history[trace := Appended(HistoryOf(c, trace), e, cfg.historySize)],
         lastTouch := c.lastTouch[trace := touched],
         queues := Delivered(c.queues, SubscribersOf(c, trace), e))
    case Subscribe(trace) =>
      if Fits(b, trace) then
        b.(subscribers := b.subscribers[trace := SubscribersOf(b, trace) + [b.next]],
           queues := b.queues[b.next := HistoryOf(b, trace)],
           next := b.next + 1)
      else b
    case Unsubscribe(trace, q) =>
      if trace in b.subscribers then b.(subscribers := b.subscribers[trace := Removed(b.subscribers[trace], q)]) else b
    case Get(q) =>
      if QueueOf(b, q) != [] then b.(queues := b.queues[q := b.queues[q][1..]]) else b
  }

  function Run(b: Bus, ops: seq<Op>, cfg: Settings): Bus {
    if ops == [] then b else After(Run(b, ops[..|ops| - 1], cfg), ops[|ops| - 1], cfg)
  }

  // ---------------------------------------------------------------------------
  // What every operation keeps
  // ---------------------------------------------------------------------------

  ghost predicate HandlesAreSound(b: Bus) {
    && (forall q | q in b.queues :: q < b.next)
    && (forall t | t in b.subscribers :: NoRepeats(b.subscribers[t]) && forall q | q in b.subscribers[t] ::
      q in b.queues)
    && (forall t, u, q | t in b.subscribers && u in b.subscribers && q in b.subscribers[t] && q in b.subscribers[u] ::
      t == u)
  }

  ghost predicate Bounded(b: Bus, cfg: Settings) {
    && (forall t | t in b.history :: |b.history[t]| <= cfg.historySize)
    && forall q | q in b.queues :: |b.queues[q]| <= CAPACITY
  }

  ghost predicate Consistent(b: Bus, cfg: Settings) {
    HandlesAreSound(b) && Bounded(b, cfg)
  }

  lemma {:induction false} DeliveredIs(queues: map<nat, seq<Event>>, qs: seq<nat>, e: Event)
    requires NoRepeats(qs)
    ensures Delivered(queues, qs, e).Keys == queues.Keys
    ensures forall q | q in queues ::
              Delivered(queues, qs, e)[q] == if q in qs then Offered(queues[q], e) else queues[q]
  {
    hide Offered;
    if qs != [] {
      var n := |qs| - 1;
      DeliveredIs(queues, qs[..n], e);
      assert qs == qs[..n] + [qs[n]];
      assert qs[n] !in qs[..n];
    }
  }

  lemma {:induction false} RemovedIs(qs: seq<nat>, q: nat)
    requires NoRepeats(qs)
    ensures NoRepeats(Removed(qs, q)) && forall x :: x in Removed(qs, q) <==> x in qs && x != q
  {
    if qs != [] {
      RemovedIs(qs[1..], q);
      assert qs == [qs[0]] + qs[1..];
      assert qs[0] !in qs[1..];
      var rest := Removed(qs[1..], q);
      forall i | 0 <= i < |rest| ensures rest[i] != qs[0] {
        assert rest[i] in rest;
      }
    }
  }

  lemma PublishConsistent(b: Bus, op: Op, cfg: Settings)
    requires Consistent(b, cfg) && op.Publish?
    ensures Consistent(After(b, op, cfg), cfg)
  {
    hide Delivered;
    var c := Collected(b, op.swept - cfg.maxAge);
    if op.trace in b.subscribers { DeliveredIs(c.queues, b.subscribers[op.trace], Event(op.stamp, op.step)); }
    NoneDelivered(c.queues, Event(op.stamp, op.step));
  }

  lemma NoneDelivered(queues: map<nat, seq<Event>>, e: Event)
    ensures Delivered(queues, [], e) == queues
  {
  }

  lemma SubscribeConsistent(b: Bus, trace: string, cfg: Settings)
    requires Consistent(b, cfg)
    ensures Consistent(After(b, Subscribe(trace), cfg), cfg)
  {
    var a, qs := After(b, Subscribe(trace), cfg), SubscribersOf(b, trace);
    assert forall q | q in qs :: q in b.queues && q < b.next;
    if Fits(b, trace) {
      var longer := qs + [b.next];
      forall i, j | 0 <= i < j < |longer| ensures longer[i] != longer[j] {
        assert longer[i] in qs;
      }
      assert a.subscribers[trace] == longer;
      assert NoRepeats(longer);
    }
  }

  lemma UnsubscribeConsistent(b: Bus, trace: string, q: nat, cfg: Settings)
    requires Consistent(b, cfg)
    ensures Consistent(After(b, Unsubscribe(trace, q), cfg), cfg)
  {
    hide Removed;
    if trace in b.subscribers { RemovedIs(b.subscribers[trace], q); }
  }

  lemma AfterConsistent(b: Bus, op: Op, cfg: Settings)
    requires Consistent(b, cfg)
    ensures Consistent(After(b, op, cfg), cfg)
  {
    hide Delivered, Removed, HandlesAreSound;
    match op
    case Publish(_, _, _, _, _) => PublishConsistent(b, op, cfg);
    case Subscribe(t) => SubscribeConsistent(b, t, cfg);
    case Unsubscribe(t, q) => UnsubscribeConsistent(b, t, q, cfg);
    case Get(q) => GetConsistent(b, q, cfg);
  }

  lemma GetConsistent(b: Bus, q: nat, cfg: Settings)
    requires Consistent(b, cfg)
    ensures Consistent(After(b, Get(q), cfg), cfg)
  {
  }

  /** Handles stay distinct, histories and queues stay within their bounds, over any run. */
  lemma {:induction false} RunConsistent(b: Bus, ops: seq<Op>, cfg: Settings)
    requires Consistent(b, cfg)
    ensures Consistent(Run(b, ops, cfg), cfg)
    decreases |ops|
  {
    hide Consistent, After;
    if ops != [] {
      RunConsistent(b, ops[..|ops| - 1], cfg);
      AfterConsistent(Run(b, ops[..|ops| - 1], cfg), ops[|ops| - 1], cfg);
    }
  }

  // ---------------------------------------------------------------------------
  // Delivery
  // ---------------------------------------------------------------------------

  /** What a step takes out of the queue. */
  function TakenBy(b: Bus, op: Op, q: nat): seq<Event> {
    if op == Get(q) && QueueOf(b, q) != [] then [QueueOf(b, q)[0]] else []
  }

  function Consumed(b: Bus, ops: seq<Op>, q: nat, cfg: Settings): seq<Event> {
    if ops == [] then []
    else
      var n := |ops| - 1;
      Consumed(b, ops[..n], q, cfg) + TakenBy(Run(b, ops[..n], cfg), ops[n], q)
  }

  function PublishedBy(op: Op, trace: string): seq<Event> {
    if op.Publish? && op.trace == trace then [Event(op.stamp, op.step)] else []
  }

  /** The events published on a trace in the course of a run. */
  function Published(ops: seq<Op>, trace: string): seq<Event> {
    if ops == [] then [] else Published(ops[..|ops| - 1], trace) + PublishedBy(ops[|ops| - 1], trace)
  }

  /** The queue had room at every publication. */
  ghost predicate NeverFull(b: Bus, ops: seq<Op>, trace: string, q: nat, cfg: Settings) {
    forall i | 0 <= i < |ops| && PublishedBy(ops[i], trace) != [] :: |QueueOf(Run(b, ops[..i], cfg), q)| < 1024
  }

  /** `a` can be got from `b` by leaving events out. */
  ghost predicate Within(a: seq<Event>, b: seq<Event>) {
    a == [] || (b != [] && ((a[|a| - 1] == b[|b| - 1] && Within(a[..|a| - 1], b[..|b| - 1]))
      || Within(a, b[..|b| - 1])))
  }

  lemma {:induction false} WithinItself(a: seq<Event>)
    ensures Within(a, a)
  {
    if a != [] { WithinItself(a[..|a| - 1]); }
  }

  lemma {:induction false} WithinLength(a: seq<Event>, b: seq<Event>)
    requires Within(a, b)
    ensures |a| <= |b| && (|a| == |b| ==> a == b)
  {
    if a != [] {
      var x, y := a[..|a| - 1], b[..|b| - 1];
      if a[|a| - 1] == b[|b| - 1] && Within(x, y) {
        WithinLength(x, y);
        assert a == x + [a[|a| - 1]] && b == y + [b[|b| - 1]];
      } else {
        WithinLength(a, y);
      }
    }
  }

  lemma WithinGrows(a: seq<Event>, b: seq<Event>, e: Event)
    requires Within(a, b)
    ensures Within(a, b + [e]) && Within(a + [e], b + [e])
  {
    assert (b + [e])[..|b|] == b && (a + [e])[..|a|] == a;
  }

  lemma PublishDelivers(b: Bus, op: Op, trace: string, q: nat, cfg: Settings)
    requires HandlesAreSound(b) && q in SubscribersOf(b, trace) && op.Publish?
    ensures var a := After(b, op, cfg);
            && q in SubscribersOf(a, trace)
            && QueueOf(a, q) == QueueOf(b, q) + (if |QueueOf(b, q)| < CAPACITY then PublishedBy(op, trace) else [])
  {
    hide Delivered, Expired;
    var c := Collected(b, op.swept - cfg.maxAge);
    if op.trace in b.subscribers { DeliveredIs(c.queues, b.subscribers[op.trace], Event(op.stamp, op.step)); }
    NoneDelivered(c.queues, Event(op.stamp, op.step));
  }

  /** One step, seen by one subscriber: what was taken out of its queue, and what is now in it. */
  lemma StepDelivers(b: Bus, op: Op, trace: string, q: nat, cfg: Settings)
    requires HandlesAreSound(b) && q in SubscribersOf(b, trace)
    requires op != Unsubscribe(trace, q)
    ensures var a := After(b, op, cfg);
            && q in SubscribersOf(a, trace)
            && TakenBy(b, op, q) + QueueOf(a, q) ==
               QueueOf(b, q) + (if |QueueOf(b, q)| < CAPACITY then PublishedBy(op, trace) else [])
  {
    hide Removed, Collected, Delivered;
    match op
    case Publish(_, _, _, _, _) =>
      PublishDelivers(b, op, trace, q, cfg);
      hide After;
    case Subscribe(t) =>
      assert q < b.next;
    case Unsubscribe(t, x) =>
      if t in b.subscribers { RemovedIs(b.subscribers[t], x); }
    case Get(x) =>
      if x == q && QueueOf(b, q) != [] { assert QueueOf(b, q) == [QueueOf(b, q)[0]] + QueueOf(b, q)[1..]; }
  }

  /**
   * What a subscriber has consumed and what waits in its queue is, in order, what was in the queue and what
   * was published since: with gaps exactly if the queue was full at some publication, otherwise without gap or
   * repeat; whatever the other operations, and the sweeping of old traces, do meanwhile.
   */
  lemma {:induction false} Delivery(b: Bus, ops: seq<Op>, trace: string, q: nat, cfg: Settings)
    requires Consistent(b, cfg) && q in SubscribersOf(b, trace)
    requires forall i | 0 <= i < |ops| :: ops[i] != Unsubscribe(trace, q)
    ensures q in SubscribersOf(Run(b, ops, cfg), trace)
    ensures var got, due := Consumed(b, ops, q, cfg) + QueueOf(Run(b, ops, cfg), q),
            QueueOf(b, q) + Published(ops, trace);
            Within(got, due) && (got == due <==> NeverFull(b, ops, trace, q, cfg))
    decreases |ops|
  {
    hide After, Bounded, HandlesAreSound, TakenBy, SubscribersOf, QueueOf, Within;
    if ops == [] {
      WithinItself(QueueOf(b, q));
      assert QueueOf(b, q) + [] == QueueOf(b, q) == [] + QueueOf(b, q);
    } else {
      var n := |ops| - 1;
      Delivery(b, ops[..n], trace, q, cfg);
      RunConsistent(b, ops[..n], cfg);
      var mid := Run(b, ops[..n], cfg);
      StepDelivers(mid, ops[n], trace, q, cfg);
      var got, due := Consumed(b, ops[..n], q, cfg) + QueueOf(mid, q), QueueOf(b, q) + Published(ops[..n], trace);
      var news := if |QueueOf(mid, q)| < CAPACITY then PublishedBy(ops[n], trace) else [];
      assert Consumed(b, ops, q, cfg) + QueueOf(Run(b, ops, cfg), q) == got + news by {
        assert Consumed(b, ops, q, cfg) + QueueOf(Run(b, ops, cfg), q) ==
               Consumed(b, ops[..n], q, cfg) + (TakenBy(mid, ops[n], q) + QueueOf(Run(b, ops, cfg), q));
      }
      assert QueueOf(b, q) + Published(ops, trace) == due + PublishedBy(ops[n], trace);
      OneMoreDue(got, due, ops[n], trace, news);
      FullEarlier(b, ops, trace, q, cfg);
    }
  }

  lemma OneMoreDue(got: seq<Event>, due: seq<Event>, op: Op, trace: string, news: seq<Event>)
    requires Within(got, due) && (news == [] || news == PublishedBy(op, trace))
    ensures Within(got + news, due + PublishedBy(op, trace))
    ensures got + news == due + PublishedBy(op, trace) <==> got == due && news == PublishedBy(op, trace)
  {
    hide Within;
    WithinLength(got, due);
    if got + news == due + PublishedBy(op, trace) {
      assert |got| == |due|;
    }
    if PublishedBy(op, trace) != [] { WithinGrows(got, due, Event(op.stamp, op.step)); }
    assert got + [] == got && due + [] == due;
  }

  lemma FullEarlier(b: Bus, ops: seq<Op>, trace: string, q: nat, cfg: Settings)
    requires ops != []
    ensures NeverFull(b, ops, trace, q, cfg) <==>
            && NeverFull(b, ops[..|ops| - 1], trace, q, cfg)
            && (PublishedBy(ops[|ops| - 1], trace) != [] ==> |QueueOf(Run(b, ops[..|ops| - 1], cfg), q)| < CAPACITY)
  {
    hide Run, QueueOf;
    var n := |ops| - 1;
    assert forall i | 0 <= i < n :: ops[..n][i] == ops[i] && ops[..n][..i] == ops[..i];
  }

  /** A new subscriber starts with the history, and fails to start only if the history is too long for a queue. */
  lemma SubscriberStarts(b: Bus, trace: string, cfg: Settings)
    requires Consistent(b, cfg)
    ensures var a := After(b, Subscribe(trace), cfg);
            && (|HistoryOf(b, trace)| <= 1024 <==> a.next == b.next + 1)
            && (|HistoryOf(b, trace)| <= 1024 ==>
                  b.next in SubscribersOf(a, trace) && QueueOf(a, b.next) == HistoryOf(b, trace))
            && (|HistoryOf(b, trace)| > 1024 ==> a == b)
    ensures cfg.historySize <= 1024 ==> Fits(b, trace)
  {
  }

  // ---------------------------------------------------------------------------
  // History
  // ---------------------------------------------------------------------------

  ghost predicate IsSuffix(a: seq<Event>, b: seq<Event>) {
    |a| <= |b| && b[|b| - |a|..] == a
  }

  function LastOf(n: nat, s: seq<Event>): seq<Event> {
    if |s| <= n then s else s[|s| - n..]
  }

  lemma AppendedLast(n: nat, s: seq<Event>, h: seq<Event>, e: Event)
    ensures IsSuffix(h, s) ==> IsSuffix(Appended(h, e, n), s + [e])
    ensures Appended(LastOf(n, s), e, n) == LastOf(n, s + [e])
  {
  }

  /** No sweep of the run comes more than the maximal age after any touch. */
  ghost predicate Quick(ops: seq<Op>, cfg: Settings) {
    forall i, j | 0 <= i < |ops| && 0 <= j < |ops| && ops[i].Publish? && ops[j].Publish? ::
      ops[i].swept - ops[j].touched <= cfg.maxAge
  }

  ghost predicate TouchedIn(b: Bus, ops: seq<Op>) {
    forall t | t in b.lastTouch :: exists j | 0 <= j < |ops| :: ops[j].Publish? && b.lastTouch[t] == ops[j].touched
  }

  lemma {:induction false} TouchesAreIn(ops: seq<Op>, cfg: Settings)
    ensures TouchedIn(Run(EMPTY, ops, cfg), ops)
    decreases |ops|
  {
    hide Delivered, Removed, Appended, Offered;
    if ops != [] {
      var n := |ops| - 1;
      TouchesAreIn(ops[..n], cfg);
      var b, a := Run(EMPTY, ops[..n], cfg), Run(EMPTY, ops, cfg);
      forall t | t in a.lastTouch
        ensures exists j | 0 <= j < |ops| :: ops[j].Publish? && a.lastTouch[t] == ops[j].touched
      {
        if ops[n].Publish? && t == ops[n].trace {
          assert ops[n].Publish? && a.lastTouch[t] == ops[n].touched;
        } else {
          var j :| 0 <= j < n && ops[..n][j].Publish? && b.lastTouch[t] == ops[..n][j].touched;
          assert ops[j].Publish? && a.lastTouch[t] == ops[j].touched;
        }
      }
    }
  }

  /**
   * A trace's history is the end of what was published on it; and if the run is quick enough for nothing to
   * be swept, exactly the last `historySize` events, which is what a late subscriber starts with.
   */
  lemma {:induction false} HistoryIsRecent(ops: seq<Op>, trace: string, cfg: Settings)
    ensures IsSuffix(HistoryOf(Run(EMPTY, ops, cfg), trace), Published(ops, trace))
    ensures Quick(ops, cfg) ==> HistoryOf(Run(EMPTY, ops, cfg), trace) == LastOf(cfg.historySize, Published(ops, trace))
    decreases |ops|
  {
    hide After, TouchedIn, Quick, IsSuffix, LastOf, HistoryOf, Expired;
    if ops == [] {
      NothingIsSuffix();
      NoHistoryYet(trace, cfg);
    } else {
      var n := |ops| - 1;
      var b := Run(EMPTY, ops[..n], cfg);
      HistoryIsRecent(ops[..n], trace, cfg);
      TouchesAreIn(ops[..n], cfg);
      var s := Published(ops[..n], trace);
      if Quick(ops, cfg) { QuickEarlier(ops, cfg); }
      if Quick(ops, cfg) && ops[n].Publish? { NothingExpires(b, ops, cfg); }
      StepHistory(b, ops[n], trace, cfg, s);
    }
  }

  /** One step, seen by one trace's history. */
  lemma StepHistory(b: Bus, op: Op, trace: string, cfg: Settings, s: seq<Event>)
    requires IsSuffix(HistoryOf(b, trace), s)
    ensures IsSuffix(HistoryOf(After(b, op, cfg), trace), s + PublishedBy(op, trace))
    ensures HistoryOf(b, trace) == LastOf(cfg.historySize, s)
            && (op.Publish? ==> Expired(b, op.swept - cfg.maxAge) == {}) ==>
              HistoryOf(After(b, op, cfg), trace) == LastOf(cfg.historySize, s + PublishedBy(op, trace))
  {
    hide Delivered, Removed, Appended, Offered, IsSuffix, LastOf, Expired;
    assert s + [] == s;
    if op.Publish? {
      SweptHistory(b, op.swept - cfg.maxAge, trace, s);
      AppendedLast(cfg.historySize, s, HistoryOf(Collected(b, op.swept - cfg.maxAge), trace), Event(op.stamp, op.step));
    }
  }

  lemma NoHistoryYet(trace: string, cfg: Settings)
    ensures HistoryOf(EMPTY, trace) == [] == LastOf(cfg.historySize, [])
  {
  }

  lemma NothingIsSuffix()
    ensures IsSuffix([], [])
  {
  }

  lemma SweptHistory(b: Bus, cutoff: real, trace: string, s: seq<Event>)
    requires IsSuffix(HistoryOf(b, trace), s)
    ensures IsSuffix(HistoryOf(Collected(b, cutoff), trace), s)
    ensures Expired(b, cutoff) == {} ==> HistoryOf(Collected(b, cutoff), trace) == HistoryOf(b, trace)
  {
  }

  lemma QuickEarlier(ops: seq<Op>, cfg: Settings)
    requires ops != [] && Quick(ops, cfg)
    ensures Quick(ops[..|ops| - 1], cfg)
  {
    var n := |ops| - 1;
    assert forall i | 0 <= i < n :: ops[..n][i] == ops[i];
  }

  lemma NothingExpires(b: Bus, ops: seq<Op>, cfg: Settings)
    requires ops != [] && ops[|ops| - 1].Publish? && Quick(ops, cfg) && TouchedIn(b, ops[..|ops| - 1])
    ensures Expired(b, ops[|ops| - 1].swept - cfg.maxAge) == {}
  {
    var n := |ops| - 1;
    forall t | t in b.lastTouch ensures b.lastTouch[t] >= ops[n].swept - cfg.maxAge {
      var j :| 0 <= j < n && ops[..n][j].Publish? && b.lastTouch[t] == ops[..n][j].touched;
      assert ops[j].Publish?;
    }
  }
}
