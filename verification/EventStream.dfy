/**
 * The server-sent-event stream of one query: the consumer of a trace queue races the query's own task,
 * and closes with the outcome. Steps of the consumer, of the query task and of everything else interleave freely.
 */
module EventStream {
  import opened Wrappers
  import opened TraceModel

  /** How the query ended: it gives an answer, or raises. */
  datatype Outcome = Answered(answer: string) | Failed(error: string)

  datatype Task = Running | Done(outcome: Outcome)

  /** What the client is sent. */
  datatype Frame = Opened | Trace(event: Event) | End(outcome: Outcome)

  datatype Phase =
    | Starting
    | Subscribing
    | Waiting(got: Option<Event>)
    | Flushing
    | Closing
    | Closed

  /** `q` is the stream's queue; `due`, kept for the proofs, is what a complete stream has to carry. */
  datatype Session = Session(bus: Bus, task: Task, phase: Phase, q: nat, frames: seq<Frame>, due: seq<Event>)

  datatype Action =
    | SendOpened
    | StartListening
    | TaskPublishes(step: Step, stamp: real, swept: real, touched: real)
    | TaskEnds(outcome: Outcome)
    | Elsewhere(op: Op)
    | TakeEvent
    | SendEvent
    | SeeTaskDone
    | TimeOut
    | FlushEvent
    | StopListening
    | SendEnd

  /** Only the query's task publishes on its trace, and nobody else uses the stream's queue. */
  predicate IsElsewhere(op: Op, trace: string, q: nat) {
    match op
    case Publish(t, _, _, _, _) => t != trace
    case Subscribe(_) => true
    case Unsubscribe(_, x) => x != q
    case Get(x) => x != q
  }

  predicate Listening(s: Session) {
    s.phase.Waiting? || s.phase.Flushing?
  }

  predicate Enabled(s: Session, a: Action, trace: string) {
    match a
    case SendOpened => s.phase == Starting
    case StartListening => s.phase == Subscribing && Fits(s.bus, trace)
    case TaskPublishes(_, _, _, _) => s.task == Running
    case TaskEnds(_) => s.task == Running
    case Elsewhere(op) => IsElsewhere(op, trace, if Listening(s) then s.q else s.bus.next)
    case TakeEvent => s.phase == Waiting(None) && QueueOf(s.bus, s.q) != []
    case SendEvent => s.phase.Waiting? && s.phase.got.Some?
    case SeeTaskDone => s.phase == Waiting(None) && s.task.Done?
    case TimeOut => s.phase == Waiting(None) && s.task == Running
    case FlushEvent => s.phase == Flushing && QueueOf(s.bus, s.q) != []
    case StopListening => s.phase == Flushing && QueueOf(s.bus, s.q) == []
    case SendEnd => s.phase == Closing && s.task.Done?
  }

  function Do(s: Session, a: Action, trace: string, cfg: Settings): Session
    requires Enabled(s, a, trace)
  {
    match a
    case SendOpened => s.(frames := s.frames + [Opened], phase := Subscribing)
    case StartListening =>
      s.(bus := After(s.bus, Subscribe(trace), cfg), q := s.bus.next, phase := Waiting(None),
        due := HistoryOf(s.bus, trace))
    case TaskPublishes(step, stamp, swept, touched) =>
      s.(bus := After(s.bus, Publish(trace, step, stamp, swept, touched), cfg),
         due := if Listening(s) then s.due + [Event(stamp, step)] else s.due)
    case TaskEnds(outcome) => s.(task := Done(outcome))
    case Elsewhere(op) => s.(bus := After(s.bus, op, cfg))
    case TakeEvent =>
      s.(bus := After(s.bus, Get(s.q), cfg), phase := Waiting(Some(QueueOf(s.bus, s.q)[0])))
    case SendEvent => s.(frames := s.frames + [Trace(s.phase.got.value)], phase := Waiting(None))
    case SeeTaskDone => s.(phase := Flushing)
    case TimeOut => s.(phase := Flushing)
    case FlushEvent =>
      s.(bus := After(s.bus, Get(s.q), cfg), frames := s.frames + [Trace(QueueOf(s.bus, s.q)[0])])
    case StopListening => s.(bus := After(s.bus, Unsubscribe(trace, s.q), cfg), phase := Closing)
    case SendEnd => s.(frames := s.frames + [End(s.task.outcome)], phase := Closed)
  }

  ghost predicate IsRun(ss: seq<Session>, acts: seq<Action>, trace: string, cfg: Settings) {
    && |ss| == |acts| + 1
    && forall i | 0 <= i < |acts| :: Enabled(ss[i], acts[i], trace) && ss[i + 1] == Do(ss[i], acts[i], trace, cfg)
  }

  /** A stream that has just been asked for, on a bus in any consistent state. */
  ghost predicate Initial(s: Session, cfg: Settings) {
    Consistent(s.bus, cfg) && s.task == Running && s.phase == Starting && s.frames == [] && s.due == []
  }

  /** The query task never publishes when the stream's queue is full. */
  predicate HasRoom(s: Session, a: Action) {
    a.TaskPublishes? && Listening(s) ==> |QueueOf(s.bus, s.q)| < CAPACITY
  }

  ghost predicate AlwaysRoom(ss: seq<Session>, acts: seq<Action>)
    requires |ss| == |acts| + 1
  {
    forall i | 0 <= i < |acts| :: HasRoom(ss[i], acts[i])
  }

  // ---------------------------------------------------------------------------
  // The invariant
  // ---------------------------------------------------------------------------

  function Traces(es: seq<Event>): seq<Frame> {
    seq(|es|, i requires 0 <= i < |es| => Trace(es[i]))
  }

  /** Taken from the queue but not yet sent. */
  function InHand(s: Session): seq<Event> {
    if s.phase.Waiting? && s.phase.got.Some? then [s.phase.got.value] else []
  }

  /** What has been sent and what is still on its way: `sent` are the events framed so far. */
  ghost predicate Accounts(s: Session, sent: seq<Event>, lossless: bool) {
    match s.phase
    case Starting => s.frames == [] && sent == [] && lossless
    case Subscribing => s.frames == [Opened] && sent == [] && lossless
    case Waiting(_) =>
      s.frames == [Opened] + Traces(sent) && Matches(sent + InHand(s) + QueueOf(s.bus, s.q), s.due, lossless)
    case Flushing =>
      s.frames == [Opened] + Traces(sent) && Matches(sent + QueueOf(s.bus, s.q), s.due, lossless)
    case Closing => s.frames == [Opened] + Traces(sent) && Matches(sent, s.due, lossless)
    case Closed =>
      && s.task.Done? && s.frames == [Opened] + Traces(sent) + [End(s.task.outcome)]
      && Matches(sent, s.due, lossless)
  }

  ghost predicate Matches(got: seq<Event>, due: seq<Event>, lossless: bool) {
    Within(got, due) && (got == due <==> lossless)
  }

  ghost predicate Inv(s: Session, trace: string, sent: seq<Event>, lossless: bool, cfg: Settings) {
    && Consistent(s.bus, cfg)
    && (Listening(s) ==> s.q in SubscribersOf(s.bus, trace))
    && Accounts(s, sent, lossless)
  }

  lemma MatchesStart(es: seq<Event>)
    ensures Matches(es, es, true)
  {
    WithinItself(es);
  }

  lemma MatchesGrow(got: seq<Event>, due: seq<Event>, e: Event, lossless: bool)
    requires Matches(got, due, lossless)
    ensures Matches(got + [e], due + [e], lossless)
    ensures Matches(got, due + [e], false)
  {
    WithinGrows(got, due, e);
    WithinLength(got, due);
    if got + [e] == due + [e] {
      assert got == (got + [e])[..|got|] == (due + [e])[..|due|] == due;
    }
  }

  lemma TracesSnoc(es: seq<Event>, e: Event)
    ensures Traces(es + [e]) == Traces(es) + [Trace(e)]
  {
  }

  lemma ElsewhereIsNotOurs(op: Op, trace: string, q: nat)
    requires IsElsewhere(op, trace, q)
    ensures PublishedBy(op, trace) == [] && op != Unsubscribe(trace, q) && op != Get(q)
  {
  }

  lemma PublishKeeps(s: Session, a: Action, trace: string, sent: seq<Event>, lossless: bool, cfg: Settings)
    requires Inv(s, trace, sent, lossless, cfg) && Enabled(s, a, trace) && a.TaskPublishes?
    ensures Inv(Do(s, a, trace, cfg), trace, sent, lossless && HasRoom(s, a), cfg)
  {
    hide Consistent, After, Matches, Traces, SubscribersOf, QueueOf;
    var op := Publish(trace, a.step, a.stamp, a.swept, a.touched);
    AfterConsistent(s.bus, op, cfg);
    if Listening(s) {
      StepDelivers(s.bus, op, trace, s.q, cfg) by { ConsistentIsSound(s.bus, cfg); }
      var queue, e := QueueOf(s.bus, s.q), Event(a.stamp, a.step);
      assert TakenBy(s.bus, op, s.q) == [];
      var held := sent + InHand(s);
      if |queue| < CAPACITY {
        assert QueueOf(After(s.bus, op, cfg), s.q) == queue + [e];
        assert held + (queue + [e]) == held + queue + [e];
        assert sent + (queue + [e]) == sent + queue + [e];
      } else {
        assert QueueOf(After(s.bus, op, cfg), s.q) == queue by { assert queue + [] == queue; }
      }
      if s.phase.Flushing? {
        MatchesGrow(sent + queue, s.due, e, lossless);
      } else {
        MatchesGrow(held + queue, s.due, e, lossless);
      }
    }
  }

  lemma ConsistentIsSound(b: Bus, cfg: Settings)
    requires Consistent(b, cfg)
    ensures HandlesAreSound(b)
  {
  }

  lemma ElsewhereLeavesQueue(s: Session, op: Op, trace: string, cfg: Settings)
    requires Consistent(s.bus, cfg) && s.q in SubscribersOf(s.bus, trace) && IsElsewhere(op, trace, s.q)
    ensures s.q in SubscribersOf(After(s.bus, op, cfg), trace)
    ensures QueueOf(After(s.bus, op, cfg), s.q) == QueueOf(s.bus, s.q)
  {
    hide Consistent, After, SubscribersOf, QueueOf;
    ElsewhereIsNotOurs(op, trace, s.q);
    StepDelivers(s.bus, op, trace, s.q, cfg) by { ConsistentIsSound(s.bus, cfg); }
    assert [] + QueueOf(After(s.bus, op, cfg), s.q) == QueueOf(After(s.bus, op, cfg), s.q);
    assert QueueOf(s.bus, s.q) + [] == QueueOf(s.bus, s.q);
  }

  lemma ElsewhereKeeps(s: Session, a: Action, trace: string, sent: seq<Event>, lossless: bool, cfg: Settings)
    requires Inv(s, trace, sent, lossless, cfg) && Enabled(s, a, trace) && a.Elsewhere?
    ensures Inv(Do(s, a, trace, cfg), trace, sent, lossless, cfg)
  {
    hide Consistent, After, Matches, Traces, SubscribersOf, QueueOf;
    AfterConsistent(s.bus, a.op, cfg);
    if Listening(s) {
      ElsewhereLeavesQueue(s, a.op, trace, cfg);
    }
  }

  lemma TakingKeeps(s: Session, trace: string, sent: seq<Event>, lossless: bool, cfg: Settings)
    requires Inv(s, trace, sent, lossless, cfg) && Enabled(s, TakeEvent, trace)
    ensures Inv(Do(s, TakeEvent, trace, cfg), trace, sent, lossless, cfg)
  {
    hide Consistent, After, Matches, Traces, SubscribersOf, QueueOf;
    AfterConsistent(s.bus, Get(s.q), cfg);
    StepDelivers(s.bus, Get(s.q), trace, s.q, cfg) by { ConsistentIsSound(s.bus, cfg); }
    var queue := QueueOf(s.bus, s.q);
    assert queue + [] == queue;
    assert sent + [] + queue == sent + [queue[0]] + QueueOf(After(s.bus, Get(s.q), cfg), s.q);
  }

  lemma FlushKeeps(s: Session, trace: string, sent: seq<Event>, lossless: bool, cfg: Settings)
    requires Inv(s, trace, sent, lossless, cfg) && Enabled(s, FlushEvent, trace)
    ensures Inv(Do(s, FlushEvent, trace, cfg), trace, sent + [QueueOf(s.bus, s.q)[0]], lossless, cfg)
  {
    hide Consistent, After, Matches, Traces, SubscribersOf, QueueOf;
    AfterConsistent(s.bus, Get(s.q), cfg);
    StepDelivers(s.bus, Get(s.q), trace, s.q, cfg) by { ConsistentIsSound(s.bus, cfg); }
    var queue := QueueOf(s.bus, s.q);
    assert queue + [] == queue;
    TracesSnoc(sent, queue[0]);
    assert sent + queue == sent + [queue[0]] + QueueOf(After(s.bus, Get(s.q), cfg), s.q);
    assert [Opened] + Traces(sent) + [Trace(queue[0])] == [Opened] + (Traces(sent) + [Trace(queue[0])]);
  }

  lemma SendKeeps(s: Session, trace: string, sent: seq<Event>, lossless: bool, cfg: Settings)
    requires Inv(s, trace, sent, lossless, cfg) && Enabled(s, SendEvent, trace)
    ensures Inv(Do(s, SendEvent, trace, cfg), trace, sent + [s.phase.got.value], lossless, cfg)
  {
    hide Consistent, After, Matches, Traces, SubscribersOf, QueueOf;
    TracesSnoc(sent, s.phase.got.value);
    assert sent + [s.phase.got.value] + [] == sent + [s.phase.got.value];
    assert [Opened] + Traces(sent) + [Trace(s.phase.got.value)] == [Opened]
           + (Traces(sent) + [Trace(s.phase.got.value)]);
  }

  lemma ListeningStarts(s: Session, trace: string, sent: seq<Event>, lossless: bool, cfg: Settings)
    requires Inv(s, trace, sent, lossless, cfg) && Enabled(s, StartListening, trace)
    ensures Inv(Do(s, StartListening, trace, cfg), trace, sent, lossless, cfg)
  {
    hide Consistent, After, Matches, SubscribersOf, QueueOf;
    AfterConsistent(s.bus, Subscribe(trace), cfg);
    SubscriberStarts(s.bus, trace, cfg);
    var h := HistoryOf(s.bus, trace);
    MatchesStart(h);
    assert [] + [] + h == h;
    assert [Opened] + Traces([]) == [Opened];
  }

  lemma ClosingKeeps(s: Session, a: Action, trace: string, sent: seq<Event>, lossless: bool, cfg: Settings)
    requires Inv(s, trace, sent, lossless, cfg) && Enabled(s, a, trace)
    requires a in {SeeTaskDone, TimeOut, StopListening, SendEnd}
    ensures Inv(Do(s, a, trace, cfg), trace, sent, lossless, cfg)
  {
    hide Consistent, After, Matches, Traces, SubscribersOf, QueueOf;
    AfterConsistent(s.bus, Unsubscribe(trace, s.q), cfg);
    assert sent + [] == sent;
  }

  /** Every step of anyone keeps the account; the frames sent only grow. */
  lemma StepKeeps(s: Session, a: Action, trace: string, sent: seq<Event>, lossless: bool, cfg: Settings)
    returns (sent': seq<Event>)
    requires Inv(s, trace, sent, lossless, cfg) && Enabled(s, a, trace)
    ensures Inv(Do(s, a, trace, cfg), trace, sent', lossless && HasRoom(s, a), cfg) && sent <= sent'
  {
    sent' := sent;
    hide Inv;
    match a
    case SendOpened => OpeningKeeps(s, trace, sent, lossless, cfg);
    case StartListening => ListeningStarts(s, trace, sent, lossless, cfg);
    case TaskPublishes(_, _, _, _) => PublishKeeps(s, a, trace, sent, lossless, cfg);
    case TaskEnds(o) => TaskEndKeeps(s, o, trace, sent, lossless, cfg);
    case Elsewhere(_) => ElsewhereKeeps(s, a, trace, sent, lossless, cfg);
    case TakeEvent => TakingKeeps(s, trace, sent, lossless, cfg);
    case SendEvent => { SendKeeps(s, trace, sent, lossless, cfg); sent' := sent + [s.phase.got.value]; }
    case FlushEvent => { FlushKeeps(s, trace, sent, lossless, cfg); sent' := sent + [QueueOf(s.bus, s.q)[0]]; }
    case SeeTaskDone => ClosingKeeps(s, a, trace, sent, lossless, cfg);
    case TimeOut => ClosingKeeps(s, a, trace, sent, lossless, cfg);
    case StopListening => ClosingKeeps(s, a, trace, sent, lossless, cfg);
    case SendEnd => ClosingKeeps(s, a, trace, sent, lossless, cfg);
  }

  lemma OpeningKeeps(s: Session, trace: string, sent: seq<Event>, lossless: bool, cfg: Settings)
    requires Inv(s, trace, sent, lossless, cfg) && Enabled(s, SendOpened, trace)
    ensures Inv(Do(s, SendOpened, trace, cfg), trace, sent, lossless, cfg)
  {
    assert s.frames + [Opened] == [Opened];
  }

  lemma TaskEndKeeps(s: Session, o: Outcome, trace: string, sent: seq<Event>, lossless: bool, cfg: Settings)
    requires Inv(s, trace, sent, lossless, cfg) && Enabled(s, TaskEnds(o), trace)
    ensures Inv(Do(s, TaskEnds(o), trace, cfg), trace, sent, lossless, cfg)
  {
    hide Consistent, Matches, Traces;
  }

  /** There was room at each of the first `k` steps. */
  ghost predicate RoomUpTo(ss: seq<Session>, acts: seq<Action>, k: nat)
    requires |ss| == |acts| + 1 && k <= |acts|
  {
    forall i | 0 <= i < k :: HasRoom(ss[i], acts[i])
  }

  /** Nothing the query task publishes after step `j` and before step `k` comes while the stream is not listening. */
  ghost predicate AllHeard(ss: seq<Session>, acts: seq<Action>, j: nat, k: nat)
    requires |ss| == |acts| + 1 && k <= |acts|
  {
    forall i | j < i < k && acts[i].TaskPublishes? :: Listening(ss[i])
  }

  lemma {:induction false} RunKeeps(ss: seq<Session>, acts: seq<Action>, trace: string, cfg: Settings, k: nat)
    returns (sent: seq<Event>)
    requires IsRun(ss, acts, trace, cfg) && Initial(ss[0], cfg) && k < |ss|
    ensures Inv(ss[k], trace, sent, RoomUpTo(ss, acts, k), cfg)
  {
    hide Do, HasRoom, Consistent, Enabled;
    if k == 0 {
      sent := [];
    } else {
      hide Inv;
      sent := RunKeeps(ss, acts, trace, cfg, k - 1);
      assert k - 1 < |acts|;
      sent := StepKeeps(ss[k - 1], acts[k - 1], trace, sent, RoomUpTo(ss, acts, k - 1), cfg);
    }
  }

  // ---------------------------------------------------------------------------
  // What the client sees
  // ---------------------------------------------------------------------------

  predicate IsEnd(f: Frame) {
    f.End?
  }

  /**
   * At any moment of any run, what was sent is the opening frame, then events that were due, in order, and
   * an end frame exactly if the stream is closed, as the last one.
   */
  lemma StreamIsOrderly(ss: seq<Session>, acts: seq<Action>, trace: string, cfg: Settings, k: nat)
    returns (sent: seq<Event>)
    requires IsRun(ss, acts, trace, cfg) && Initial(ss[0], cfg) && k < |ss|
    ensures var s := ss[k];
            if s.phase == Starting then s.frames == []
            else
              && (s.phase == Closed <==> s.frames != [] && IsEnd(s.frames[|s.frames| - 1]))
              && (s.phase == Closed ==> s.task.Done? && s.frames == [Opened] + Traces(sent) + [End(s.task.outcome)])
              && (s.phase != Closed ==> s.frames == [Opened] + Traces(sent))
    ensures ss[k].phase in {Closing, Closed} ==> Within(sent, ss[k].due)
  {
    hide Do, HasRoom, Consistent, Enabled, IsRun, QueueOf, SubscribersOf;
    sent := RunKeeps(ss, acts, trace, cfg, k);
  }

  /**
   * If the queue always has room, a stream that has closed carried the whole history it found and every event
   * published while it listened, in order and once each, and then the outcome.
   */
  lemma ClosedStreamIsComplete(ss: seq<Session>, acts: seq<Action>, trace: string, cfg: Settings, k: nat)
    requires IsRun(ss, acts, trace, cfg) && Initial(ss[0], cfg) && k < |ss|
    requires AlwaysRoom(ss, acts) && ss[k].phase == Closed
    ensures ss[k].task.Done?
    ensures ss[k].frames == [Opened] + Traces(ss[k].due) + [End(ss[k].task.outcome)]
  {
    assert RoomUpTo(ss, acts, k);
    hide Do, HasRoom, Consistent, Enabled, IsRun, QueueOf, SubscribersOf;
    var sent := RunKeeps(ss, acts, trace, cfg, k);
  }

  function PublishedByTask(acts: seq<Action>): seq<Event> {
    if acts == [] then []
    else
      var a := acts[|acts| - 1];
      PublishedByTask(acts[..|acts| - 1]) + (if a.TaskPublishes? then [Event(a.stamp, a.step)] else [])
  }

  lemma PublishedSnoc(acts: seq<Action>, a: Action)
    ensures PublishedByTask(acts + [a]) == PublishedByTask(acts)
            + (if a.TaskPublishes? then [Event(a.stamp, a.step)] else [])
  {
    assert (acts + [a])[..|acts|] == acts;
  }

  /**
   * Without a timeout the stream listens until the query task is done, so nothing the query task publishes
   * after the start is missed.
   */
  lemma {:induction false} NothingIsMissed(ss: seq<Session>, acts: seq<Action>, trace: string, cfg: Settings, j: nat,
                                           k: nat)
    requires IsRun(ss, acts, trace, cfg) && Initial(ss[0], cfg) && j < k < |ss|
    requires acts[j] == StartListening && TimeOut !in acts
    ensures ss[k].due == HistoryOf(ss[j].bus, trace) + PublishedByTask(acts[j + 1..k])
    ensures KeepsListening(ss[k])
    decreases k
  {
    hide Do, HistoryOf, Initial, Enabled;
    assert Enabled(ss[k - 1], acts[k - 1], trace) && ss[k] == Do(ss[k - 1], acts[k - 1], trace, cfg);
    if k == j + 1 {
      assert acts[j + 1..k] == [];
      DueStarts(ss[j], trace, cfg);
    } else {
      NothingIsMissed(ss, acts, trace, cfg, j, k - 1);
      assert acts[j + 1..k] == acts[j + 1..k - 1] + [acts[k - 1]];
      PublishedSnoc(acts[j + 1..k - 1], acts[k - 1]);
      assert acts[k - 1] in acts;
      DueStep(ss[k - 1], acts[k - 1], trace, cfg);
    }
  }

  ghost predicate KeepsListening(s: Session) {
    && (Listening(s) || (s.task.Done? && (s.phase == Closing || s.phase == Closed)))
    && (s.phase == Flushing ==> s.task.Done?)
  }

  lemma DueStarts(s: Session, trace: string, cfg: Settings)
    requires Enabled(s, StartListening, trace)
    ensures var s' := Do(s, StartListening, trace, cfg);
            s'.due == HistoryOf(s.bus, trace) + [] && s'.phase == Waiting(None)
  {
    hide After, HistoryOf, Fits;
  }

  lemma DueStep(s: Session, a: Action, trace: string, cfg: Settings)
    requires Enabled(s, a, trace) && a != TimeOut && KeepsListening(s)
    ensures KeepsListening(Do(s, a, trace, cfg))
    ensures Do(s, a, trace, cfg).due == s.due + (if a.TaskPublishes? then [Event(a.stamp, a.step)] else [])
  {
    hide After, HistoryOf, QueueOf, Fits, IsElsewhere;
    assert s.due + [] == s.due;
  }

  /**
   * The whole promise: no timeout, room in the queue: history, then all that followed, then the outcome, once
   * and last.
   */
  lemma StreamCarriesEverything(ss: seq<Session>, acts: seq<Action>, trace: string, cfg: Settings, j: nat, k: nat)
    requires IsRun(ss, acts, trace, cfg) && Initial(ss[0], cfg) && j < k < |ss|
    requires acts[j] == StartListening && TimeOut !in acts && AlwaysRoom(ss, acts) && ss[k].phase == Closed
    ensures ss[k].task.Done?
    ensures ss[k].frames == [Opened] + Traces(HistoryOf(ss[j].bus, trace) + PublishedByTask(acts[j + 1..k]))
            + [End(ss[k].task.outcome)]
  {
    hide IsRun, Initial, AlwaysRoom, HistoryOf;
    ClosedStreamIsComplete(ss, acts, trace, cfg, k);
    NothingIsMissed(ss, acts, trace, cfg, j, k);
  }

  ghost predicate Subscribed(s: Session) {
    s.phase != Starting && s.phase != Subscribing
  }

  lemma DueGrows(s: Session, a: Action, trace: string, cfg: Settings)
    requires Enabled(s, a, trace) && Subscribed(s)
    ensures Subscribed(Do(s, a, trace, cfg))
    ensures Do(s, a, trace, cfg).due ==
            if a.TaskPublishes? && Listening(s) then s.due + [Event(a.stamp, a.step)] else s.due
  {
    hide After, HistoryOf, QueueOf, Fits, IsElsewhere;
  }

  /** The events due are all those published exactly if every one of them was heard; otherwise they are fewer. */
  lemma {:induction false} DueIsWhatWasHeard(ss: seq<Session>, acts: seq<Action>, trace: string, cfg: Settings,
                                             j: nat, k: nat)
    requires IsRun(ss, acts, trace, cfg) && j < k < |ss| && acts[j] == StartListening
    ensures var all := HistoryOf(ss[j].bus, trace) + PublishedByTask(acts[j + 1..k]);
            && |ss[k].due| <= |all|
            && (ss[k].due == all <==> AllHeard(ss, acts, j, k))
    ensures Subscribed(ss[k])
    decreases k
  {
    hide Do, HistoryOf, Enabled, Listening, Subscribed;
    assert Enabled(ss[k - 1], acts[k - 1], trace) && ss[k] == Do(ss[k - 1], acts[k - 1], trace, cfg);
    var h := HistoryOf(ss[j].bus, trace);
    if k == j + 1 {
      assert acts[j + 1..k] == [];
      DueStarts(ss[j], trace, cfg);
      WaitingIsSubscribed(ss[k]);
    } else {
      DueIsWhatWasHeard(ss, acts, trace, cfg, j, k - 1);
      var a := acts[k - 1];
      var earlier := h + PublishedByTask(acts[j + 1..k - 1]);
      assert acts[j + 1..k] == acts[j + 1..k - 1] + [a];
      PublishedSnoc(acts[j + 1..k - 1], a);
      DueGrows(ss[k - 1], a, trace, cfg);
      if a.TaskPublishes? {
        OneMoreEqual(ss[k - 1].due, earlier, Event(a.stamp, a.step));
        assert h + PublishedByTask(acts[j + 1..k]) == earlier + [Event(a.stamp, a.step)];
      } else {
        assert h + PublishedByTask(acts[j + 1..k]) == earlier;
      }
    }
  }

  lemma WaitingIsSubscribed(s: Session)
    requires s.phase == Waiting(None)
    ensures Subscribed(s)
  {
  }

  lemma OneMoreEqual(a: seq<Event>, b: seq<Event>, e: Event)
    ensures a + [e] == b + [e] <==> a == b
    ensures |a| <= |b| ==> a != b + [e]
  {
    if a + [e] == b + [e] {
      assert a == (a + [e])[..|a|] == (b + [e])[..|b|] == b;
    }
  }

  lemma TracesInjective(a: seq<Event>, b: seq<Event>)
    ensures Traces(a) == Traces(b) <==> a == b
  {
    if Traces(a) == Traces(b) {
      forall i | 0 <= i < |a| ensures a[i] == b[i] {
        assert Traces(a)[i] == Trace(a[i]) && Traces(b)[i] == Trace(b[i]);
      }
      assert |Traces(a)| == |a| && |Traces(b)| == |b|;
    }
  }

  lemma FramesInjective(a: seq<Frame>, b: seq<Frame>, o: Outcome)
    ensures [Opened] + a + [End(o)] == [Opened] + b + [End(o)] <==> a == b
  {
    var x, y := [Opened] + a + [End(o)], [Opened] + b + [End(o)];
    assert a == x[1..|x| - 1] && b == y[1..|y| - 1];
  }

  /**
   * Exactly when a closed stream has carried the history it found, all that the query task published since,
   * and the outcome: every event was published while the stream was listening, and found room in the queue.
   */
  lemma CompleteExactly(ss: seq<Session>, acts: seq<Action>, trace: string, cfg: Settings, j: nat, k: nat)
    requires IsRun(ss, acts, trace, cfg) && Initial(ss[0], cfg) && j < k < |ss|
    requires acts[j] == StartListening && ss[k].phase == Closed
    ensures ss[k].task.Done?
    ensures ss[k].frames ==
            [Opened] + Traces(HistoryOf(ss[j].bus, trace) + PublishedByTask(acts[j + 1..k])) + [End(ss[k].task.outcome)]
            <==> AllHeard(ss, acts, j, k) && RoomUpTo(ss, acts, k)
  {
    assert |ss| == |acts| + 1;
    hide Consistent, IsRun, QueueOf, SubscribersOf, HistoryOf, AllHeard, RoomUpTo, Traces, Within, Initial;
    var sent := RunKeeps(ss, acts, trace, cfg, k);
    DueIsWhatWasHeard(ss, acts, trace, cfg, j, k);
    var all := HistoryOf(ss[j].bus, trace) + PublishedByTask(acts[j + 1..k]);
    WithinLength(sent, ss[k].due);
    TracesInjective(sent, all);
    FramesInjective(Traces(sent), Traces(all), ss[k].task.outcome);
  }

  lemma {:induction false} OneStepMore(ss: seq<Session>, acts: seq<Action>, a: Action, trace: string, cfg: Settings)
    requires IsRun(ss, acts, trace, cfg) && Enabled(ss[|acts|], a, trace)
    ensures IsRun(ss + [Do(ss[|acts|], a, trace, cfg)], acts + [a], trace, cfg)
  {
    hide Do, Enabled;
    var tt, bs := ss + [Do(ss[|acts|], a, trace, cfg)], acts + [a];
    forall i | 0 <= i < |bs| ensures Enabled(tt[i], bs[i], trace) && tt[i + 1] == Do(tt[i], bs[i], trace, cfg) {
      if i < |acts| {
        assert tt[i] == ss[i] && bs[i] == acts[i] && tt[i + 1] == ss[i + 1];
      }
    }
  }

  function AfterTimeOut(step: Step): seq<Action> {
    [TimeOut, StopListening, TaskPublishes(step, 0.0, 0.0, 0.0), TaskEnds(Answered("")), SendEnd]
  }

  lemma TimeOutSteps(s: Session, trace: string, cfg: Settings, step: Step)
    requires s.phase == Waiting(None) && s.task == Running && QueueOf(s.bus, s.q) == []
    ensures Enabled(s, TimeOut, trace)
    ensures var s1 := Do(s, TimeOut, trace, cfg);
            Enabled(s1, StopListening, trace)
            && var s2 := Do(s1, StopListening, trace, cfg);
            Enabled(s2, TaskPublishes(step, 0.0, 0.0, 0.0), trace)
            && var s3 := Do(s2, TaskPublishes(step, 0.0, 0.0, 0.0), trace, cfg);
            Enabled(s3, TaskEnds(Answered("")), trace)
            && var s4 := Do(s3, TaskEnds(Answered("")), trace, cfg);
            Enabled(s4, SendEnd, trace)
            && var s5 := Do(s4, SendEnd, trace, cfg);
            s5.phase == Closed && s5.frames == s.frames + [End(Answered(""))]
  {
    hide After;
  }

  /**
   * A run that loses an event: wherever a run has come to wait on an empty queue with the query task still
   * running, it can go on to time out and close, with an event published in between that was not sent.
   */
  lemma TimeoutCanMiss(ss: seq<Session>, acts: seq<Action>, trace: string, cfg: Settings, step: Step)
    returns (tt: seq<Session>)
    requires IsRun(ss, acts, trace, cfg) && Initial(ss[0], cfg)
    requires ss[|acts|].phase == Waiting(None) && ss[|acts|].task == Running
    requires QueueOf(ss[|acts|].bus, ss[|acts|].q) == []
    ensures IsRun(tt, acts + AfterTimeOut(step), trace, cfg) && tt[0] == ss[0]
    ensures tt[|acts| + 5].phase == Closed && tt[|acts| + 5].frames == ss[|acts|].frames + [End(Answered(""))]
  {
    var a1, a2, a3, a4, a5 :=
      TimeOut, StopListening, TaskPublishes(step, 0.0, 0.0, 0.0), TaskEnds(Answered("")), SendEnd;
    var s := ss[|acts|];
    TimeOutSteps(s, trace, cfg, step);
    hide IsRun, After, Do, Enabled, QueueOf;
    var s1 := Do(s, a1, trace, cfg);
    var s2 := Do(s1, a2, trace, cfg);
    var s3 := Do(s2, a3, trace, cfg);
    var s4 := Do(s3, a4, trace, cfg);
    var s5 := Do(s4, a5, trace, cfg);
    OneStepMore(ss, acts, a1, trace, cfg);
    OneStepMore(ss + [s1], acts + [a1], a2, trace, cfg);
    OneStepMore(ss + [s1] + [s2], acts + [a1] + [a2], a3, trace, cfg);
    OneStepMore(ss + [s1] + [s2] + [s3], acts + [a1] + [a2] + [a3], a4, trace, cfg);
    OneStepMore(ss + [s1] + [s2] + [s3] + [s4], acts + [a1] + [a2] + [a3] + [a4], a5, trace, cfg);
    tt := ss + [s1] + [s2] + [s3] + [s4] + [s5];
    assert acts + AfterTimeOut(step) == acts + [a1] + [a2] + [a3] + [a4] + [a5];
  }

  /** Such a wait is reached: on a bus that has seen nothing yet, as soon as the stream listens. */
  lemma WaitIsReached(trace: string, cfg: Settings) returns (ss: seq<Session>)
    ensures IsRun(ss, [SendOpened, StartListening], trace, cfg) && Initial(ss[0], cfg)
    ensures ss[2].phase == Waiting(None) && ss[2].task == Running && QueueOf(ss[2].bus, ss[2].q) == []
  {
    var s := Session(EMPTY, Running, Starting, 0, [], []);
    var s1 := Do(s, SendOpened, trace, cfg);
    var s2 := Do(s1, StartListening, trace, cfg);
    ss := [s, s1, s2];
  }

  // ---------------------------------------------------------------------------
  // It ends
  // ---------------------------------------------------------------------------

  /** Steps of the stream itself. */
  predicate IsOwn(a: Action) {
    a in {SendOpened, StartListening, TakeEvent, SendEvent, SeeTaskDone, FlushEvent, StopListening, SendEnd}
  }

  /** The most steps the stream may still take by itself once the query task is done. */
  function Left(s: Session): nat {
    match s.phase
    case Starting => 2 * CAPACITY + 5
    case Subscribing => 2 * CAPACITY + 4
    case Waiting(got) => 2 * |QueueOf(s.bus, s.q)| + if got.Some? then 4 else 3
    case Flushing => 2 * |QueueOf(s.bus, s.q)| + 2
    case Closing => 1
    case Closed => 0
  }

  /** Once the query task is done a listening stream can always go on, and every step brings it nearer to the end. */
  lemma StreamEnds(s: Session, trace: string, cfg: Settings)
    requires s.task.Done? && s.phase != Starting && s.phase != Subscribing && s.phase != Closed
    ensures exists a :: IsOwn(a) && Enabled(s, a, trace)
    ensures forall a | IsOwn(a) && Enabled(s, a, trace) :: Left(Do(s, a, trace, cfg)) < Left(s)
  {
    hide Removed;
    match s.phase
    case Waiting(got) =>
      if got.Some? { assert Enabled(s, SendEvent, trace) && IsOwn(SendEvent); }
      else { assert Enabled(s, SeeTaskDone, trace) && IsOwn(SeeTaskDone); }
    case Flushing =>
      if QueueOf(s.bus, s.q) != [] { assert Enabled(s, FlushEvent, trace) && IsOwn(FlushEvent); }
      else { assert Enabled(s, StopListening, trace) && IsOwn(StopListening); }
    case Closing => assert Enabled(s, SendEnd, trace) && IsOwn(SendEnd);
  }

  function OwnSteps(acts: seq<Action>): nat {
    if acts == [] then 0
    else OwnSteps(acts[..|acts| - 1]) + (if IsOwn(acts[|acts| - 1]) then 1 else 0)
  }

  lemma OwnStepNears(s: Session, a: Action, trace: string, cfg: Settings)
    requires Consistent(s.bus, cfg) && Enabled(s, a, trace) && IsOwn(a)
    ensures Left(Do(s, a, trace, cfg)) < Left(s)
  {
    if a == StartListening {
      SubscriberStarts(s.bus, trace, cfg);
    }
    hide Removed, Consistent;
  }

  /** What others do once the query task is done leaves the stream where it was. */
  lemma OthersLeaveIt(s: Session, a: Action, trace: string, cfg: Settings)
    requires Consistent(s.bus, cfg) && (Listening(s) ==> s.q in SubscribersOf(s.bus, trace))
    requires s.task.Done? && Enabled(s, a, trace) && !IsOwn(a)
    ensures Left(Do(s, a, trace, cfg)) == Left(s)
  {
    hide Consistent, After, SubscribersOf;
    if Listening(s) {
      ElsewhereLeavesQueue(s, a.op, trace, cfg);
    }
  }

  lemma DoneStays(s: Session, a: Action, trace: string, cfg: Settings)
    requires Enabled(s, a, trace) && s.task.Done?
    ensures Do(s, a, trace, cfg).task.Done?
  {
    hide After, QueueOf, HistoryOf, Fits, IsElsewhere;
  }

  /**
   * From the end of the query task on, in any run, the stream takes no more steps of its own than it had left,
   * however many steps of others come in between.
   */
  lemma {:induction false} StreamIsBounded(ss: seq<Session>, acts: seq<Action>, trace: string, cfg: Settings,
                                           i: nat, k: nat)
    requires IsRun(ss, acts, trace, cfg) && Initial(ss[0], cfg) && i <= k < |ss| && ss[i].task.Done?
    ensures OwnSteps(acts[i..k]) + Left(ss[k]) <= Left(ss[i]) && ss[k].task.Done?
    decreases k
  {
    hide Do, Enabled, Left, Initial, Consistent, SubscribersOf, IsOwn, Accounts;
    if i < k {
      StreamIsBounded(ss, acts, trace, cfg, i, k - 1);
      var s, a := ss[k - 1], acts[k - 1];
      assert Enabled(s, a, trace) && ss[k] == Do(s, a, trace, cfg);
      assert acts[i..k][..k - 1 - i] == acts[i..k - 1];
      var sent := RunKeeps(ss, acts, trace, cfg, k - 1);
      DoneStays(s, a, trace, cfg);
      if IsOwn(a) {
        OwnStepNears(s, a, trace, cfg);
      } else {
        OthersLeaveIt(s, a, trace, cfg);
      }
    }
  }
}
