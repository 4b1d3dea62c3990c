/**
 * The in-memory event bus, and any number of subscribers whose loops interleave with each other and with
 * publishers.
 */
module MemoryBus {
  import opened Wrappers

  datatype Event = Event(id: string, kind: string, trace: string, payload: string)

  datatype DeadLetter = DeadLetter(stream: string, event: Event, reason: string)

  datatype Bus = Bus(
    queues: map<string, seq<Event>>, published: seq<(string, Event)>, dlq: seq<DeadLetter>, closed: bool)

  const EMPTY := Bus(map[], [], [], false)

  function QueueOf(b: Bus, stream: string): seq<Event> {
    if stream in b.queues then b.queues[stream] else []
  }

  /** The events published on a stream, in order. */
  function PublishedOn(published: seq<(string, Event)>, stream: string): seq<Event> {
    if published == [] then []
    else
      var n := |published| - 1;
      PublishedOn(published[..n], stream) + (if published[n].0 == stream then [published[n].1] else [])
  }

  function DeadOn(dlq: seq<DeadLetter>, stream: string): seq<Event> {
    if dlq == [] then []
    else
      var n := |dlq| - 1;
      DeadOn(dlq[..n], stream) + (if dlq[n].stream == stream then [dlq[n].event] else [])
  }

  function WithPublished(b: Bus, stream: string, e: Event): Bus {
    b.(queues := b.queues[stream := QueueOf(b, stream) + [e]], published := b.published + [(stream, e)])
  }

  function WithTaken(b: Bus, stream: string): Bus
    requires QueueOf(b, stream) != []
  {
    b.(queues := b.queues[stream := QueueOf(b, stream)[1..]])
  }

  function WithDead(b: Bus, stream: string, e: Event, reason: string): Bus {
    b.(dlq := b.dlq + [DeadLetter(stream, e, reason)])
  }

  class InMemoryBus {
    var queues: map<string, seq<Event>>
    var published: seq<(string, Event)>
    var dlq: seq<DeadLetter>
    var closed: bool

    ghost function Model(): Bus
      reads this
    {
      Bus(queues, published, dlq, closed)
    }

    constructor ()
      ensures Model() == EMPTY
    {
      queues, published, dlq, closed := map[], [], [], false;
    }

    /** The message's number in the bus, or nothing if the bus is closed. */
    method Publish(stream: string, e: Event) returns (number: Option<nat>)
      modifies this
      ensures number.None? <==> old(closed)
      ensures Model() == if old(closed) then old(Model()) else WithPublished(old(Model()), stream, e)
      ensures number.Some? ==> number.value == |published| && published[number.value - 1] == (stream, e)
    {
      if closed { return None; }
      if stream !in queues { queues := queues[stream := []]; }
      queues := queues[stream := queues[stream] + [e]];
      published := published + [(stream, e)];
      number := Some(|published|);
    }

    /** What a waiting subscriber gets; an empty queue gives nothing. */
    method Take(stream: string) returns (e: Option<Event>)
      modifies this
      ensures e.None? <==> QueueOf(old(Model()), stream) == []
      ensures e.None? ==> Model() == old(Model())
      ensures e.Some? ==> e.value == QueueOf(old(Model()), stream)[0] && Model() == WithTaken(old(Model()), stream)
    {
      if stream !in queues || queues[stream] == [] { return None; }
      e := Some(queues[stream][0]);
      queues := queues[stream := queues[stream][1..]];
    }

    method PutAside(stream: string, e: Event, reason: string)
      modifies this
      ensures Model() == WithDead(old(Model()), stream, e, reason)
    {
      dlq := dlq + [DeadLetter(stream, e, reason)];
    }

    method Close()
      modifies this
      ensures Model() == old(Model()).(closed := true)
    {
      closed := true;
    }
  }

  // ---------------------------------------------------------------------------
  // Publishers and subscribers together
  // ---------------------------------------------------------------------------

  datatype Phase = AtTop | Waiting | Holding(event: Event) | Left

  datatype Subscriber = Subscriber(stream: string, phase: Phase)

  /** `handed` and `handled` are kept for the proofs: what subscribers were given, and what their handlers finished. */
  datatype World = World(
    bus: Bus, subscribers: seq<Subscriber>, handed: map<string, seq<Event>>, handled: map<string, seq<Event>>)

  datatype Action =
    | Publishing(stream: string, event: Event)
    | Subscribing(stream: string)
    | Looking(i: nat)
    | Leaving(i: nat)
    | Taking(i: nat)
    | TimingOut(i: nat)
    | Finishing(i: nat)
    | Failing(i: nat, reason: string)
    | Closing

  function LogOf(log: map<string, seq<Event>>, stream: string): seq<Event> {
    if stream in log then log[stream] else []
  }

  function Logged(log: map<string, seq<Event>>, stream: string, e: Event): map<string, seq<Event>> {
    log[stream := LogOf(log, stream) + [e]]
  }

  predicate Enabled(w: World, a: Action) {
    match a
    case Publishing(_, _) => !w.bus.closed
    case Subscribing(_) => true
    case Looking(i) => i < |w.subscribers| && w.subscribers[i].phase == AtTop && !w.bus.closed
    case Leaving(i) => i < |w.subscribers| && w.subscribers[i].phase == AtTop && w.bus.closed
    case Taking(i) =>
      i < |w.subscribers| && w.subscribers[i].phase == Waiting && QueueOf(w.bus, w.subscribers[i].stream) != []
    case TimingOut(i) => i < |w.subscribers| && w.subscribers[i].phase == Waiting
    case Finishing(i) => i < |w.subscribers| && w.subscribers[i].phase.Holding?
    case Failing(i, _) => i < |w.subscribers| && w.subscribers[i].phase.Holding?
    case Closing => true
  }

  function Moved(w: World, i: nat, p: Phase): seq<Subscriber>
    requires i < |w.subscribers|
  {
    w.subscribers[i := w.subscribers[i].(phase := p)]
  }

  function Do(w: World, a: Action): World
    requires Enabled(w, a)
  {
    match a
    case Publishing(stream, e) => w.(bus := WithPublished(w.bus, stream, e))
    case Subscribing(stream) => w.(subscribers := w.subscribers + [Subscriber(stream, AtTop)])
    case Looking(i) => w.(subscribers := Moved(w, i, Waiting))
    case Leaving(i) => w.(subscribers := Moved(w, i, Left))
    case Taking(i) =>
      var stream := w.subscribers[i].stream;
      var e := QueueOf(w.bus, stream)[0];
      w.(bus := WithTaken(w.bus, stream), subscribers := Moved(w, i, Holding(e)), handed := Logged(w.handed, stream, e))
    case TimingOut(i) => w.(subscribers := Moved(w, i, AtTop))
    case Finishing(i) =>
      var s := w.subscribers[i];
      w.(subscribers := Moved(w, i, AtTop), handled := Logged(w.handled, s.stream, s.phase.event))
    case Failing(i, reason) =>
      var s := w.subscribers[i];
      w.(subscribers := Moved(w, i, AtTop), bus := WithDead(w.bus, s.stream, s.phase.event, reason))
    case Closing => w.(bus := w.bus.(closed := true))
  }

  const START := World(EMPTY, [], map[], map[])

  predicate AllEnabled(acts: seq<Action>)
    decreases |acts|, 0
  {
    acts == [] || (AllEnabled(acts[..|acts| - 1]) && Enabled(Run(acts[..|acts| - 1]), acts[|acts| - 1]))
  }

  function Run(acts: seq<Action>): World
    requires AllEnabled(acts)
    decreases |acts|, 1
  {
    if acts == [] then START else Do(Run(acts[..|acts| - 1]), acts[|acts| - 1])
  }

  // ---------------------------------------------------------------------------
  // Where every event is
  // ---------------------------------------------------------------------------

  function Hand(s: Subscriber, stream: string): multiset<Event> {
    if s.stream == stream && s.phase.Holding? then multiset{s.phase.event} else multiset{}
  }

  /** What the subscribers of a stream have in hand. */
  function Hands(ss: seq<Subscriber>, stream: string): multiset<Event> {
    if ss == [] then multiset{} else Hands(ss[..|ss| - 1], stream) + Hand(ss[|ss| - 1], stream)
  }

  lemma {:induction false} HandsUpdated(ss: seq<Subscriber>, i: nat, s: Subscriber, stream: string)
    requires i < |ss|
    ensures Hands(ss[i := s], stream) + Hand(ss[i], stream) == Hands(ss, stream) + Hand(s, stream)
    decreases |ss|
  {
    hide Hand;
    var n := |ss| - 1;
    if i < n {
      HandsUpdated(ss[..n], i, s, stream);
      assert ss[i := s][..n] == ss[..n][i := s];
      assert ss[..n][i] == ss[i] && ss[i := s][n] == ss[n];
      var x := Hand(ss[n], stream);
      assert Hands(ss[..n][i := s], stream) + x + Hand(ss[i], stream) == Hands(ss[..n][i := s], stream)
             + Hand(ss[i], stream) + x;
      assert Hands(ss[..n], stream) + x + Hand(s, stream) == Hands(ss[..n], stream) + Hand(s, stream) + x;
    } else {
      assert ss[i := s][..n] == ss[..n];
    }
  }

  lemma EmptyHandsMoved(ss: seq<Subscriber>, i: nat, p: Phase, stream: string)
    requires i < |ss| && !ss[i].phase.Holding? && !p.Holding?
    ensures Hands(ss[i := ss[i].(phase := p)], stream) == Hands(ss, stream)
  {
    hide Hands;
    HandsUpdated(ss, i, ss[i].(phase := p), stream);
    assert Hands(ss, stream) + multiset{} == Hands(ss, stream);
  }

  /** In order: what was handed out, then what is queued, is what was published. */
  ghost predicate InOrder(w: World, stream: string) {
    LogOf(w.handed, stream) + QueueOf(w.bus, stream) == PublishedOn(w.bus.published, stream)
  }

  /** What was handed out has been handled, or dead-lettered, or is in someone's hands; each event once. */
  ghost predicate Accounted(w: World, stream: string) {
    multiset(LogOf(w.handed, stream)) ==
    multiset(LogOf(w.handled, stream)) + multiset(DeadOn(w.bus.dlq, stream)) + Hands(w.subscribers, stream)
  }

  lemma PublishedSnoc(published: seq<(string, Event)>, s: string, e: Event, stream: string)
    ensures PublishedOn(published + [(s, e)], stream) == PublishedOn(published, stream)
            + (if s == stream then [e] else [])
  {
    assert (published + [(s, e)])[..|published|] == published;
  }

  lemma DeadSnoc(dlq: seq<DeadLetter>, d: DeadLetter, stream: string)
    ensures DeadOn(dlq + [d], stream) == DeadOn(dlq, stream) + (if d.stream == stream then [d.event] else [])
  {
    assert (dlq + [d])[..|dlq|] == dlq;
  }

  lemma HandsJoin(ss: seq<Subscriber>, s: Subscriber, stream: string)
    requires !s.phase.Holding?
    ensures Hands(ss + [s], stream) == Hands(ss, stream)
  {
    assert (ss + [s])[..|ss|] == ss;
  }

  lemma TakingInOrder(w: World, i: nat, stream: string)
    requires Enabled(w, Taking(i)) && InOrder(w, stream)
    ensures InOrder(Do(w, Taking(i)), stream)
  {
    hide PublishedOn;
    if w.subscribers[i].stream == stream {
      var queue := QueueOf(w.bus, stream);
      assert LogOf(w.handed, stream) + queue == LogOf(w.handed, stream) + [queue[0]] + queue[1..];
    }
  }

  lemma PublishingInOrder(w: World, s: string, e: Event, stream: string)
    requires InOrder(w, stream)
    ensures InOrder(w.(bus := WithPublished(w.bus, s, e)), stream)
  {
    PublishedSnoc(w.bus.published, s, e, stream);
    hide PublishedOn;
    var queue := QueueOf(w.bus, stream);
    assert LogOf(w.handed, stream) + (queue + [e]) == LogOf(w.handed, stream) + queue + [e];
    assert PublishedOn(w.bus.published, stream) + [] == PublishedOn(w.bus.published, stream);
  }

  lemma StepInOrder(w: World, a: Action, stream: string)
    requires Enabled(w, a) && InOrder(w, stream)
    ensures InOrder(Do(w, a), stream)
  {
    hide PublishedOn, LogOf, Moved;
    match a
    case Publishing(s, e) => PublishingInOrder(w, s, e, stream);
    case Taking(i) => TakingInOrder(w, i, stream);
    case _ =>
  }

  lemma OneMoreLogged(log: map<string, seq<Event>>, s: string, e: Event, stream: string)
    ensures multiset(LogOf(Logged(log, s, e), stream)) ==
            multiset(LogOf(log, stream)) + (if s == stream then multiset{e} else multiset{})
  {
    assert multiset(LogOf(log, s) + [e]) == multiset(LogOf(log, s)) + multiset{e};
    assert multiset(LogOf(log, stream)) + multiset{} == multiset(LogOf(log, stream));
  }

  lemma OneMoreDead(dlq: seq<DeadLetter>, d: DeadLetter, stream: string)
    ensures multiset(DeadOn(dlq + [d], stream)) ==
            multiset(DeadOn(dlq, stream)) + (if d.stream == stream then multiset{d.event} else multiset{})
  {
    DeadSnoc(dlq, d, stream);
    hide DeadOn;
    assert multiset(DeadOn(dlq, stream) + [d.event]) == multiset(DeadOn(dlq, stream)) + multiset{d.event};
    assert DeadOn(dlq, stream) + [] == DeadOn(dlq, stream);
  }

  lemma TakingUp(w: World, i: nat, e: Event, stream: string)
    requires i < |w.subscribers| && !w.subscribers[i].phase.Holding?
    ensures Hands(Moved(w, i, Holding(e)), stream) ==
            Hands(w.subscribers, stream) + (if w.subscribers[i].stream == stream then multiset{e} else multiset{})
  {
    hide Hands;
    HandsUpdated(w.subscribers, i, w.subscribers[i].(phase := Holding(e)), stream);
    assert Hands(Moved(w, i, Holding(e)), stream) + multiset{} == Hands(Moved(w, i, Holding(e)), stream);
  }

  lemma LettingGo(w: World, i: nat, stream: string)
    requires i < |w.subscribers| && w.subscribers[i].phase.Holding?
    ensures Hands(Moved(w, i, AtTop), stream)
            + (if w.subscribers[i].stream == stream then multiset{w.subscribers[i].phase.event} else multiset{}) ==
            Hands(w.subscribers, stream)
  {
    hide Hands;
    HandsUpdated(w.subscribers, i, w.subscribers[i].(phase := AtTop), stream);
    assert Hands(w.subscribers, stream) + multiset{} == Hands(w.subscribers, stream);
  }

  /** What leaves the hands turns up elsewhere. */
  lemma Balance(handed: multiset<Event>, a: multiset<Event>, b: multiset<Event>, hands: multiset<Event>,
                hands': multiset<Event>, x: multiset<Event>)
    requires handed == a + b + hands && hands' + x == hands
    ensures handed == (a + x) + b + hands' && handed == a + (b + x) + hands'
  {
    assert handed == a + b + (hands' + x);
  }

  lemma TakingAccounted(w: World, i: nat, stream: string)
    requires Enabled(w, Taking(i)) && Accounted(w, stream)
    ensures Accounted(Do(w, Taking(i)), stream)
  {
    hide Hands, DeadOn, LogOf, Logged, Moved, QueueOf;
    var s, e := w.subscribers[i], QueueOf(w.bus, w.subscribers[i].stream)[0];
    TakingUp(w, i, e, stream);
    OneMoreLogged(w.handed, s.stream, e, stream);
  }

  lemma FinishingAccounted(w: World, i: nat, stream: string)
    requires Enabled(w, Finishing(i)) && Accounted(w, stream)
    ensures Accounted(Do(w, Finishing(i)), stream)
  {
    hide Hands, DeadOn, LogOf, Logged, Moved;
    var s := w.subscribers[i];
    LettingGo(w, i, stream);
    OneMoreLogged(w.handled, s.stream, s.phase.event, stream);
    Balance(multiset(LogOf(w.handed, stream)), multiset(LogOf(w.handled, stream)), multiset(DeadOn(w.bus.dlq, stream)),
            Hands(w.subscribers, stream), Hands(Moved(w, i, AtTop), stream),
            if s.stream == stream then multiset{s.phase.event} else multiset{});
  }

  lemma FailingAccounted(w: World, i: nat, reason: string, stream: string)
    requires Enabled(w, Failing(i, reason)) && Accounted(w, stream)
    ensures Accounted(Do(w, Failing(i, reason)), stream)
  {
    hide Hands, DeadOn, LogOf, Logged, Moved;
    var s := w.subscribers[i];
    LettingGo(w, i, stream);
    OneMoreDead(w.bus.dlq, DeadLetter(s.stream, s.phase.event, reason), stream);
    Balance(multiset(LogOf(w.handed, stream)), multiset(LogOf(w.handled, stream)), multiset(DeadOn(w.bus.dlq, stream)),
            Hands(w.subscribers, stream), Hands(Moved(w, i, AtTop), stream),
            if s.stream == stream then multiset{s.phase.event} else multiset{});
  }

  lemma StepAccounted(w: World, a: Action, stream: string)
    requires Enabled(w, a) && Accounted(w, stream)
    ensures Accounted(Do(w, a), stream)
  {
    hide Hands, DeadOn, LogOf;
    match a
    case Taking(i) => TakingAccounted(w, i, stream);
    case Finishing(i) => FinishingAccounted(w, i, stream);
    case Failing(i, reason) => FailingAccounted(w, i, reason, stream);
    case Subscribing(s) => HandsJoin(w.subscribers, Subscriber(s, AtTop), stream);
    case Looking(i) => EmptyHandsMoved(w.subscribers, i, Waiting, stream);
    case Leaving(i) => EmptyHandsMoved(w.subscribers, i, Left, stream);
    case TimingOut(i) => EmptyHandsMoved(w.subscribers, i, AtTop, stream);
    case Publishing(_, _) =>
    case Closing =>
  }

  /**
   * In every reachable world: each event published on a stream is in its queue, in one subscriber's hands,
   * handled or dead-lettered, once and in one of these places only; and events are handed out in the order of
   * publication.
   */
  lemma {:induction false} EveryEventIsSomewhere(acts: seq<Action>, stream: string)
    requires AllEnabled(acts)
    ensures var w := Run(acts);
            && InOrder(w, stream) && Accounted(w, stream)
            && multiset(PublishedOn(w.bus.published, stream)) ==
               multiset(QueueOf(w.bus, stream)) + Hands(w.subscribers, stream)
               + multiset(LogOf(w.handled, stream)) + multiset(DeadOn(w.bus.dlq, stream))
    decreases |acts|
  {
    hide Do, Enabled, QueueOf, Hands, DeadOn, LogOf, PublishedOn;
    if acts == [] {
      StartIsGood(stream);
    } else {
      var n := |acts| - 1;
      EveryEventIsSomewhere(acts[..n], stream);
      StepInOrder(Run(acts[..n]), acts[n], stream);
      StepAccounted(Run(acts[..n]), acts[n], stream);
    }
    var w := Run(acts);
    assert multiset(LogOf(w.handed, stream) + QueueOf(w.bus, stream)) ==
           multiset(LogOf(w.handed, stream)) + multiset(QueueOf(w.bus, stream));
  }

  lemma StartIsGood(stream: string)
    ensures InOrder(START, stream) && Accounted(START, stream)
  {
  }

  predicate QuietAt(w: World, stream: string) {
    QueueOf(w.bus, stream) == [] && forall i | 0 <= i < |w.subscribers| :: !w.subscribers[i].phase.Holding?
  }

  lemma {:induction false} EmptyHands(ss: seq<Subscriber>, stream: string)
    requires forall i | 0 <= i < |ss| :: !ss[i].phase.Holding?
    ensures Hands(ss, stream) == multiset{}
  {
    if ss != [] { EmptyHands(ss[..|ss| - 1], stream); }
  }

  /** When a stream's queue is empty and all hands are, everything published on it was handled or dead-lettered. */
  lemma QuietMeansDone(acts: seq<Action>, stream: string)
    requires AllEnabled(acts) && QuietAt(Run(acts), stream)
    ensures var w := Run(acts);
            && LogOf(w.handed, stream) == PublishedOn(w.bus.published, stream)
            && multiset(PublishedOn(w.bus.published, stream)) ==
               multiset(LogOf(w.handled, stream)) + multiset(DeadOn(w.bus.dlq, stream))
  {
    hide Run, AllEnabled, DeadOn, LogOf, PublishedOn, Hands;
    EveryEventIsSomewhere(acts, stream);
    EmptyHands(Run(acts).subscribers, stream);
    var w := Run(acts);
    assert LogOf(w.handed, stream) + [] == LogOf(w.handed, stream);
  }

  // ---------------------------------------------------------------------------
  // What a run leaves behind
  // ---------------------------------------------------------------------------

  /** The events published in a run, in order, each with its stream. */
  function Publishings(acts: seq<Action>): seq<(string, Event)> {
    if acts == [] then []
    else
      var n := |acts| - 1;
      Publishings(acts[..n]) + (if acts[n].Publishing? then [(acts[n].stream, acts[n].event)] else [])
  }

  /** The letters of a run: for every handler that failed its stream, the event it had and the reason. */
  function Letters(acts: seq<Action>): seq<DeadLetter>
    requires AllEnabled(acts)
  {
    if acts == [] then []
    else
      var n := |acts| - 1;
      Letters(acts[..n])
      + (if acts[n].Failing? then
           var s := Run(acts[..n]).subscribers[acts[n].i];
           [DeadLetter(s.stream, s.phase.event, acts[n].reason)]
         else [])
  }

  /** The bus has logged every event published and every failure, in order, and is closed exactly if it was closed. */
  lemma {:induction false} RunIsLogged(acts: seq<Action>)
    requires AllEnabled(acts)
    ensures Run(acts).bus.published == Publishings(acts) && Run(acts).bus.dlq == Letters(acts)
    ensures Run(acts).bus.closed <==> Closing in acts
  {
    if acts != [] {
      var n := |acts| - 1;
      RunIsLogged(acts[..n]);
      assert acts == acts[..n] + [acts[n]];
      DoLogs(Run(acts[..n]), acts[n]);
      hide Do, Enabled;
      assert Run(acts) == Do(Run(acts[..n]), acts[n]);
    }
  }

  lemma DoLogs(w: World, a: Action)
    requires Enabled(w, a)
    ensures var b := Do(w, a).bus;
            && b.published == w.bus.published + (if a.Publishing? then [(a.stream, a.event)] else [])
            && (a.Failing? ==>
                  var s := w.subscribers[a.i];
                  b.dlq == w.bus.dlq + [DeadLetter(s.stream, s.phase.event, a.reason)])
            && (!a.Failing? ==> b.dlq == w.bus.dlq)
            && (b.closed <==> w.bus.closed || a == Closing)
  {
    hide QueueOf, Logged, Moved;
  }

  /** Once the bus is closed nothing more is published. */
  lemma NothingAfterClosing(acts: seq<Action>, k: nat, j: nat)
    requires AllEnabled(acts) && k < j < |acts| && acts[k] == Closing
    ensures !acts[j].Publishing?
  {
    hide Run, AllEnabled;
    PrefixEnabled(acts, j + 1);
    PrefixEnabled(acts, j);
    assert acts[..j + 1][..j] == acts[..j] && acts[..j + 1][j] == acts[j];
    LastEnabled(acts[..j + 1]);
    RunIsLogged(acts[..j]);
    assert acts[..j][k] == Closing;
  }

  lemma LastEnabled(acts: seq<Action>)
    requires AllEnabled(acts) && acts != []
    ensures AllEnabled(acts[..|acts| - 1]) && Enabled(Run(acts[..|acts| - 1]), acts[|acts| - 1])
  {
  }

  lemma {:induction false} PrefixEnabled(acts: seq<Action>, k: nat)
    requires AllEnabled(acts) && k <= |acts|
    ensures AllEnabled(acts[..k])
  {
    if k == |acts| {
      assert acts[..k] == acts;
    } else {
      LastEnabled(acts);
      PrefixEnabled(acts[..|acts| - 1], k);
      assert acts[..|acts| - 1][..k] == acts[..k];
    }
  }
}
