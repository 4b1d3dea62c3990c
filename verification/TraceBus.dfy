/** The in-process trace bus. A queue given to a subscriber is known by its handle. */
module TraceBus {
  import opened Wrappers
  import opened TraceModel

  lemma PublishIs(b: Bus, trace: string, step: Step, stamp: real, swept: real, touched: real, cfg: Settings,
                  c: Bus, r: Bus, d: Bus)
    requires Consistent(b, cfg) && c == Collected(b, swept - cfg.maxAge)
    requires r == c.(history := c.history[trace := Appended(HistoryOf(c, trace), Event(stamp, step), cfg.historySize)],
                     lastTouch := c.lastTouch[trace := touched])
    requires d == r.(queues := Delivered(r.queues, SubscribersOf(r, trace), Event(stamp, step)))
    ensures d == After(b, Op.Publish(trace, step, stamp, swept, touched), cfg) && Consistent(d, cfg)
  {
    AfterConsistent(b, Op.Publish(trace, step, stamp, swept, touched), cfg);
    hide Appended, Delivered, Collected, HistoryOf, Consistent;
  }

  class TraceBus {
    const cfg: Settings
    var history: map<string, seq<Event>>
    var subscribers: map<string, seq<nat>>
    var lastTouch: map<string, real>
    var queues: map<nat, seq<Event>>
    var next: nat

    ghost function Model(): Bus
      reads this
    {
      Bus(history, subscribers, lastTouch, queues, next)
    }

    ghost predicate Valid()
      reads this
    {
      Consistent(Model(), cfg)
    }

    constructor (historySize: nat, maxAge: real)
      ensures cfg == Settings(historySize, maxAge) && Model() == EMPTY && Valid()
    {
      cfg := Settings(historySize, maxAge);
      history, subscribers, lastTouch, queues, next := map[], map[], map[], map[], 0;
    }

    /** Drops the history of traces that have not been touched since the cutoff. */
    method Collect(cutoff: real)
      modifies `history, `lastTouch
      ensures Model() == Collected(old(Model()), cutoff)
    {
      var expired := set t | t in lastTouch && lastTouch[t] < cutoff;
      ghost var all := expired;
      while expired != {}
        invariant expired <= all
        invariant history == old(history) - (all - expired) && lastTouch == old(lastTouch) - (all - expired)
        decreases |expired|
      {
        var t :| t in expired;
        expired := expired - {t};
        lastTouch := lastTouch - {t};
        history := history - {t};
      }
    }

    /** Records an event and offers it to every subscriber of the trace; one whose queue is full misses it. */
    method Publish(trace: string, step: Step, stamp: real, swept: real, touched: real)
      requires Valid()
      modifies this
      ensures Model() == After(old(Model()), Op.Publish(trace, step, stamp, swept, touched), cfg) && Valid()
    {
      hide Consistent, Appended, Delivered, Expired, After, Collected, HistoryOf, SubscribersOf;
      ghost var b := Model();
      var event := Event(stamp, step);
      Collect(swept - cfg.maxAge);
      ghost var c := Model();
      Record(trace, event, touched);
      ghost var r := Model();
      Deliver(trace, event);
      PublishIs(b, trace, step, stamp, swept, touched, cfg, c, r, Model());
    }

    method Record(trace: string, event: Event, touched: real)
      modifies `history, `lastTouch
      ensures var b := old(Model());
              Model() == b.(history := b.history[trace := Appended(HistoryOf(b, trace), event, cfg.historySize)],
                            lastTouch := b.lastTouch[trace := touched])
    {
      hide Appended;
      if trace !in history { history := history[trace := []]; }
      history := history[trace := Appended(history[trace], event, cfg.historySize)];
      lastTouch := lastTouch[trace := touched];
    }

    method Deliver(trace: string, event: Event)
      modifies `queues
      ensures Model() == old(Model()).(queues := Delivered(old(Model()).queues, SubscribersOf(old(Model()), trace),
              event))
    {
      var listeners := if trace in subscribers then subscribers[trace] else [];
      for i := 0 to |listeners|
        invariant queues == Delivered(old(queues), listeners[..i], event)
      {
        assert listeners[..i + 1][..i] == listeners[..i];
        if listeners[i] in queues && |queues[listeners[i]]| < CAPACITY {
          queues := queues[listeners[i] := queues[listeners[i]] + [event]];
        }
      }
      assert listeners[..|listeners|] == listeners;
    }

    /** A fresh queue that holds the history; none if the history does not fit. */
    method Subscribe(trace: string) returns (q: Option<nat>)
      requires Valid()
      modifies this
      ensures Model() == After(old(Model()), Op.Subscribe(trace), cfg) && Valid()
      ensures q == if Fits(old(Model()), trace) then Some(old(next)) else None
      ensures cfg.historySize <= CAPACITY ==> q.Some?
    {
      AfterConsistent(Model(), Op.Subscribe(trace), cfg);
      SubscriberStarts(Model(), trace, cfg);
      hide Consistent;
      var kept := if trace in history then history[trace] else [];
      var queue: seq<Event> := [];
      for i := 0 to |kept|
        invariant queue == kept[..i] && |queue| <= CAPACITY
      {
        if |queue| >= CAPACITY { return None; }
        queue := queue + [kept[i]];
      }
      assert kept[..|kept|] == kept;
      q := Some(next);
      queues := queues[next := queue];
      subscribers := subscribers[trace := (if trace in subscribers then subscribers[trace] else []) + [next]];
      next := next + 1;
    }

    method Unsubscribe(trace: string, q: nat)
      requires Valid()
      modifies this
      ensures Model() == After(old(Model()), Op.Unsubscribe(trace, q), cfg) && Valid()
    {
      AfterConsistent(Model(), Op.Unsubscribe(trace, q), cfg);
      if trace in subscribers { subscribers := subscribers[trace := Removed(subscribers[trace], q)]; }
    }

    /** What the owner of a queue does; an empty queue gives nothing. */
    method Get(q: nat) returns (e: Option<Event>)
      requires Valid()
      modifies this
      ensures Model() == After(old(Model()), Op.Get(q), cfg) && Valid()
      ensures (if e.Some? then [e.value] else []) == TakenBy(old(Model()), Op.Get(q), q)
    {
      AfterConsistent(Model(), Op.Get(q), cfg);
      if q !in queues || queues[q] == [] { return None; }
      e := Some(queues[q][0]);
      queues := queues[q := queues[q][1..]];
    }
  }
}
