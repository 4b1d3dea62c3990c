/**
 * The consumer groups of the Redis bus, step by step: read, handle, acknowledge or dead-letter; any call to
 * the server may fail and any consumer may crash between two steps.
 */
module RedisBus {
  const BATCH: nat := 8

  /** What has happened to a message in one group. */
  datatype Status = Status(starts: nat, handled: bool, dead: nat, acked: bool)

  const UNTOUCHED := Status(0, false, 0, false)

  /** How far a consumer is with the first message of its batch. */
  datatype Stage = Next | Handling | Handled | Failed | Buried

  datatype Consumer = Consumer(alive: bool, batch: seq<nat>, stage: Stage)

  /** Messages are numbered as they are added; `first` is where the group was created, `next` what `>` reads next. */
  datatype Group = Group(first: nat, next: nat, status: map<nat, Status>, consumers: seq<Consumer>)

  datatype World = World(length: nat, groups: map<string, Group>)

  datatype Step =
    | Join
    | Read(c: nat, count: nat)
    | Start(c: nat)
    | Unreadable(c: nat)
    | HandlerDone(c: nat)
    | HandlerRaises(c: nat)
    | Acked(c: nat)
    | AckFails(c: nat, applied: bool)
    | DeadLettered(c: nat)
    | Crash(c: nat)

  datatype Action = Publish | CreateGroup(name: string) | InGroup(name: string, step: Step)

  predicate Working(g: Group, c: nat, stage: Stage) {
    c < |g.consumers| && g.consumers[c].alive && g.consumers[c].batch != [] && g.consumers[c].stage == stage
  }

  function Current(g: Group, c: nat): nat
    requires c < |g.consumers| && g.consumers[c].batch != []
  {
    g.consumers[c].batch[0]
  }

  predicate Enabled(g: Group, s: Step, length: nat) {
    match s
    case Join => true
    case Read(c, count) =>
      c < |g.consumers| && g.consumers[c].alive && g.consumers[c].batch == [] && 1 <= count <= BATCH
        && g.next + count <= length
    case Start(c) => Working(g, c, Next)
    case Unreadable(c) => Working(g, c, Next)
    case HandlerDone(c) => Working(g, c, Handling)
    case HandlerRaises(c) => Working(g, c, Handling)
    case Acked(c) => Working(g, c, Handled) || Working(g, c, Buried)
    case AckFails(c, _) => Working(g, c, Handled)
    case DeadLettered(c) => Working(g, c, Failed)
    case Crash(c) => c < |g.consumers| && g.consumers[c].alive
  }

  function StatusOf(g: Group, m: nat): Status {
    if m in g.status then g.status[m] else UNTOUCHED
  }

  function WithStage(g: Group, c: nat, stage: Stage): seq<Consumer>
    requires c < |g.consumers|
  {
    g.consumers[c := g.consumers[c].(stage := stage)]
  }

  function WithStatus(g: Group, m: nat, s: Status): map<nat, Status> {
    g.status[m := s]
  }

  function Numbers(from: nat, count: nat): seq<nat> {
    seq(count, i requires 0 <= i => from + i)
  }

  /**
   * An acknowledgement that fails after the handler is done is caught with the handler's own errors, so the
   * message is dead-lettered too; the server may have applied it all the same. A dead-letter or second
   * acknowledgement that fails ends the consumer, like a crash at that point.
   */
  function After(g: Group, s: Step, length: nat): Group
    requires Enabled(g, s, length)
  {
    match s
    case Join => g.(consumers := g.consumers + [Consumer(true, [], Next)])
    case Read(c, count) =>
      g.(next := g.next + count, consumers := g.consumers[c := Consumer(true, Numbers(g.next, count), Next)])
    case Start(c) =>
      var m := Current(g, c);
      g.(status := WithStatus(g, m, StatusOf(g, m).(starts := StatusOf(g, m).starts + 1)),
        consumers := WithStage(g, c, Handling))
    case Unreadable(c) => g.(consumers := WithStage(g, c, Failed))
    case HandlerDone(c) =>
      var m := Current(g, c);
      g.(status := WithStatus(g, m, StatusOf(g, m).(handled := true)), consumers := WithStage(g, c, Handled))
    case HandlerRaises(c) => g.(consumers := WithStage(g, c, Failed))
    case Acked(c) =>
      var m := Current(g, c);
      g.(status := WithStatus(g, m, StatusOf(g, m).(acked := true)),
         consumers := g.consumers[c := Consumer(true, g.consumers[c].batch[1..], Next)])
    case AckFails(c, applied) =>
      var m := Current(g, c);
      g.(status := WithStatus(g, m, StatusOf(g, m).(acked := applied)), consumers := WithStage(g, c, Failed))
    case DeadLettered(c) =>
      var m := Current(g, c);
      g.(status := WithStatus(g, m, StatusOf(g, m).(dead := StatusOf(g, m).dead + 1)),
        consumers := WithStage(g, c, Buried))
    case Crash(c) => g.(consumers := g.consumers[c := g.consumers[c].(alive := false)])
  }

  predicate Possible(w: World, a: Action) {
    match a
    case Publish => true
    case CreateGroup(_) => true
    case InGroup(name, s) => name in w.groups && Enabled(w.groups[name], s, w.length)
  }

  /** A group that exists is left as it is; a new one starts at the end of the stream. */
  function Do(w: World, a: Action): World
    requires Possible(w, a)
  {
    match a
    case Publish => w.(length := w.length + 1)
    case CreateGroup(name) =>
      if name in w.groups then w else w.(groups := w.groups[name := Group(w.length, w.length, map[], [])])
    case InGroup(name, s) => w.(groups := w.groups[name := After(w.groups[name], s, w.length)])
  }

  predicate AllPossible(acts: seq<Action>)
    decreases |acts|, 0
  {
    acts == [] || (AllPossible(acts[..|acts| - 1]) && Possible(Run(acts[..|acts| - 1]), acts[|acts| - 1]))
  }

  function Run(acts: seq<Action>): World
    requires AllPossible(acts)
    decreases |acts|, 1
  {
    if acts == [] then World(0, map[]) else Do(Run(acts[..|acts| - 1]), acts[|acts| - 1])
  }

  // ---------------------------------------------------------------------------
  // The invariant
  // ---------------------------------------------------------------------------

  /** What the stage of a message in hand says about it. */
  predicate Fits(s: Status, stage: Stage) {
    && (s.acked ==> s.handled && (stage == Failed || stage == Buried))
    && match stage
       case Next => s == UNTOUCHED
       case Handling => s.starts == 1 && !s.handled && s.dead == 0
       case Handled => s.starts == 1 && s.handled && s.dead == 0
       case Failed => s.starts <= 1 && s.dead == 0 && (s.handled ==> s.starts == 1)
       case Buried => s.starts <= 1 && s.dead == 1 && (s.handled ==> s.starts == 1)
  }

  /** Whatever happens to a message, these hold. */
  predicate Sound(s: Status) {
    && s.starts <= 1 && s.dead <= 1
    && (s.handled ==> s.starts == 1)
    && (s.acked ==> s.handled || s.dead == 1)
  }

  ghost predicate Disjoint(a: seq<nat>, b: seq<nat>) {
    forall i, j | 0 <= i < |a| && 0 <= j < |b| :: a[i] != b[j]
  }

  ghost predicate BatchFits(g: Group, c: Consumer) {
    && (forall i | 0 <= i < |c.batch| :: g.first <= c.batch[i] < g.next)
    && (forall i, j | 0 <= i < j < |c.batch| :: c.batch[i] < c.batch[j])
    && (c.batch != [] ==> Fits(StatusOf(g, c.batch[0]), c.stage))
    && |c.batch| <= 8
    && forall i | 0 < i < |c.batch| :: StatusOf(g, c.batch[i]) == UNTOUCHED
  }

  ghost predicate GroupOk(g: Group, length: nat) {
    && g.first <= g.next <= length
    && (forall m | m in g.status :: g.first <= m < g.next && Sound(g.status[m]))
    && (forall c | 0 <= c < |g.consumers| :: BatchFits(g, g.consumers[c]))
    && forall c, d | 0 <= c < d < |g.consumers| :: Disjoint(g.consumers[c].batch, g.consumers[d].batch)
  }

  lemma JoinOk(g: Group, length: nat)
    requires GroupOk(g, length)
    ensures GroupOk(After(g, Join, length), length)
  {
    var g' := After(g, Join, length);
    forall c | 0 <= c < |g'.consumers| ensures BatchFits(g', g'.consumers[c]) {
      if c < |g.consumers| { assert BatchFits(g, g.consumers[c]); }
    }
  }

  lemma UnreadAreUntouched(g: Group, length: nat, m: nat)
    requires GroupOk(g, length) && g.next <= m
    ensures StatusOf(g, m) == UNTOUCHED
  {
  }

  lemma ReadOk(g: Group, c: nat, count: nat, length: nat)
    requires GroupOk(g, length) && Enabled(g, Read(c, count), length)
    ensures GroupOk(After(g, Read(c, count), length), length)
  {
    var g' := After(g, Read(c, count), length);
    forall d | 0 <= d < |g'.consumers| ensures BatchFits(g', g'.consumers[d]) {
      if d != c { assert BatchFits(g, g.consumers[d]); } else {
        forall i | 0 <= i < count ensures StatusOf(g', Numbers(g.next, count)[i]) == UNTOUCHED {
          UnreadAreUntouched(g, length, g.next + i);
        }
      }
    }
    forall d, e | 0 <= d < e < |g'.consumers| ensures Disjoint(g'.consumers[d].batch, g'.consumers[e].batch) {
      assert BatchFits(g, g.consumers[d]) && BatchFits(g, g.consumers[e]);
    }
  }

  lemma OthersFit(g: Group, c: nat, d: nat, s: Status, k: Consumer, length: nat)
    requires GroupOk(g, length) && c < |g.consumers| && d < |g.consumers| && c != d && g.consumers[c].batch != []
    ensures BatchFits(g.(status := WithStatus(g, Current(g, c), s), consumers := g.consumers[c := k]), g.consumers[d])
  {
    hide Fits, Sound;
    assert BatchFits(g, g.consumers[d]);
    if c < d {
      assert Disjoint(g.consumers[c].batch, g.consumers[d].batch);
    } else {
      assert Disjoint(g.consumers[d].batch, g.consumers[c].batch);
    }
  }

  lemma OwnFits(g: Group, c: nat, s: Status, k: Consumer, length: nat)
    requires GroupOk(g, length) && c < |g.consumers| && g.consumers[c].batch != []
    requires (k.batch == g.consumers[c].batch && Fits(s, k.stage))
             || (k.batch == g.consumers[c].batch[1..] && k.stage == Next)
    ensures BatchFits(g.(status := WithStatus(g, Current(g, c), s), consumers := g.consumers[c := k]), k)
  {
    hide Fits, Sound;
    assert BatchFits(g, g.consumers[c]);
    UntouchedFits();
  }

  lemma BatchesStayApart(g: Group, c: nat, k: Consumer, length: nat)
    requires GroupOk(g, length) && c < |g.consumers|
    requires forall i | 0 <= i < |k.batch| :: k.batch[i] in g.consumers[c].batch
    ensures var cs := g.consumers[c := k]; forall d, e | 0 <= d < e < |cs| :: Disjoint(cs[d].batch, cs[e].batch)
  {
    hide Fits, Sound, BatchFits;
    var cs := g.consumers[c := k];
    forall d, e | 0 <= d < e < |cs| ensures Disjoint(cs[d].batch, cs[e].batch) {
      assert Disjoint(g.consumers[d].batch, g.consumers[e].batch);
    }
  }

  /** A step on the first message of a batch touches no other message, so no other consumer. */
  lemma StatusStepOk(g: Group, c: nat, s: Status, k: Consumer, length: nat)
    requires GroupOk(g, length) && c < |g.consumers| && g.consumers[c].batch != []
    requires Sound(s)
    requires (k.batch == g.consumers[c].batch && Fits(s, k.stage))
             || (k.batch == g.consumers[c].batch[1..] && k.stage == Next)
    ensures GroupOk(g.(status := WithStatus(g, Current(g, c), s), consumers := g.consumers[c := k]), length)
  {
    hide Fits, Sound, Disjoint;
    var m := Current(g, c);
    var g' := g.(status := WithStatus(g, m, s), consumers := g.consumers[c := k]);
    assert g.first <= m < g.next by { assert BatchFits(g, g.consumers[c]); }
    BatchesStayApart(g, c, k, length);
    OwnFits(g, c, s, k, length);
    forall d | 0 <= d < |g'.consumers| && d != c ensures BatchFits(g', g'.consumers[d]) {
      OthersFit(g, c, d, s, k, length);
    }
    hide BatchFits;
  }

  lemma UntouchedFits()
    ensures Fits(UNTOUCHED, Next)
  {
  }

  lemma StageStepOk(g: Group, c: nat, k: Consumer, length: nat)
    requires GroupOk(g, length) && c < |g.consumers| && k.batch == g.consumers[c].batch
    requires k.batch != [] ==> Fits(StatusOf(g, k.batch[0]), k.stage)
    ensures GroupOk(g.(consumers := g.consumers[c := k]), length)
  {
    hide Fits, Sound;
    var g' := g.(consumers := g.consumers[c := k]);
    forall d | 0 <= d < |g'.consumers| ensures BatchFits(g', g'.consumers[d]) {
      assert BatchFits(g, g.consumers[d]);
    }
    forall d, e | 0 <= d < e < |g'.consumers| ensures Disjoint(g'.consumers[d].batch, g'.consumers[e].batch) {
      assert Disjoint(g.consumers[d].batch, g.consumers[e].batch);
    }
  }

  lemma InHandSound(g: Group, c: nat, length: nat)
    requires GroupOk(g, length) && c < |g.consumers| && g.consumers[c].batch != []
    ensures Sound(StatusOf(g, Current(g, c))) && Fits(StatusOf(g, Current(g, c)), g.consumers[c].stage)
  {
    assert BatchFits(g, g.consumers[c]);
  }

  lemma StepOk(g: Group, s: Step, length: nat)
    requires GroupOk(g, length) && Enabled(g, s, length)
    ensures GroupOk(After(g, s, length), length)
  {
    hide GroupOk;
    match s
    case Join => JoinOk(g, length);
    case Read(c, count) => ReadOk(g, c, count, length);
    case Crash(c) =>
      if g.consumers[c].batch != [] { InHandSound(g, c, length); }
      StageStepOk(g, c, g.consumers[c].(alive := false), length);
    case Unreadable(c) =>
      InHandSound(g, c, length);
      StageStepOk(g, c, g.consumers[c].(stage := Failed), length);
    case HandlerRaises(c) =>
      InHandSound(g, c, length);
      StageStepOk(g, c, g.consumers[c].(stage := Failed), length);
    case AckFails(c, applied) =>
      InHandSound(g, c, length);
      StatusStepOk(g, c, StatusOf(g, Current(g, c)).(acked := applied), g.consumers[c].(stage := Failed), length);
    case Start(c) =>
      InHandSound(g, c, length);
      var t := StatusOf(g, Current(g, c));
      StatusStepOk(g, c, t.(starts := t.starts + 1), g.consumers[c].(stage := Handling), length);
    case HandlerDone(c) =>
      InHandSound(g, c, length);
      StatusStepOk(g, c, StatusOf(g, Current(g, c)).(handled := true), g.consumers[c].(stage := Handled), length);
    case DeadLettered(c) =>
      InHandSound(g, c, length);
      var t := StatusOf(g, Current(g, c));
      StatusStepOk(g, c, t.(dead := t.dead + 1), g.consumers[c].(stage := Buried), length);
    case Acked(c) =>
      InHandSound(g, c, length);
      StatusStepOk(g, c, StatusOf(g, Current(g, c)).(acked := true), Consumer(true, g.consumers[c].batch[1..], Next),
        length);
  }

  ghost predicate AllOk(w: World) {
    forall name | name in w.groups :: GroupOk(w.groups[name], w.length)
  }

  lemma LongerOk(g: Group, length: nat)
    requires GroupOk(g, length)
    ensures GroupOk(g, length + 1)
  {
  }

  lemma NewGroupOk(length: nat)
    ensures GroupOk(Group(length, length, map[], []), length)
  {
  }

  lemma {:induction false} ReachableOk(acts: seq<Action>)
    requires AllPossible(acts)
    ensures AllOk(Run(acts))
    decreases |acts|
  {
    hide GroupOk, After, Enabled;
    if acts != [] {
      var n := |acts| - 1;
      ReachableOk(acts[..n]);
      var w := Run(acts[..n]);
      match acts[n] {
        case Publish =>
          forall name | name in w.groups ensures GroupOk(w.groups[name], w.length + 1) {
            LongerOk(w.groups[name], w.length);
          }
        case CreateGroup(_) => NewGroupOk(w.length);
        case InGroup(name, s) => StepOk(w.groups[name], s, w.length);
      }
    }
  }

  /**
   * In every reachable state and every group: no message's handler was started twice and none was dead-lettered
   * twice; an acknowledged message was handled or has a dead-letter copy; a message from before the group, or
   * not yet read, was never touched.
   */
  lemma AckedMeansDealtWith(acts: seq<Action>, name: string, m: nat)
    requires AllPossible(acts) && name in Run(acts).groups
    ensures var s := StatusOf(Run(acts).groups[name], m);
            && s.starts <= 1 && s.dead <= 1 && (s.handled ==> s.starts == 1) && (s.acked ==> s.handled || s.dead == 1)
    ensures var g := Run(acts).groups[name];
            m < g.first || g.next <= m ==> StatusOf(g, m) == UNTOUCHED
  {
    hide Run, AllPossible, BatchFits, Disjoint;
    ReachableOk(acts);
  }

  /** No consumer ever has more than eight messages at a time. */
  lemma BatchesAreSmall(acts: seq<Action>, name: string, c: nat)
    requires AllPossible(acts) && name in Run(acts).groups && c < |Run(acts).groups[name].consumers|
    ensures |Run(acts).groups[name].consumers[c].batch| <= 8
  {
    hide Run, AllPossible, Disjoint, Sound, Fits;
    ReachableOk(acts);
    var g := Run(acts).groups[name];
    assert BatchFits(g, g.consumers[c]);
  }

  // ---------------------------------------------------------------------------
  // What a crash loses
  // ---------------------------------------------------------------------------

  /** The message was read and is in no live consumer's batch. */
  ghost predicate Stuck(g: Group, m: nat) {
    && m < g.next
    && forall c | 0 <= c < |g.consumers| && g.consumers[c].alive :: m !in g.consumers[c].batch
  }

  lemma StuckStays(g: Group, s: Step, m: nat, length: nat)
    requires Enabled(g, s, length) && Stuck(g, m)
    ensures Stuck(After(g, s, length), m) && StatusOf(After(g, s, length), m) == StatusOf(g, m)
  {
    var g' := After(g, s, length);
    forall c | 0 <= c < |g'.consumers| && g'.consumers[c].alive ensures m !in g'.consumers[c].batch {
      if c < |g.consumers| && g.consumers[c].alive {
        assert m !in g.consumers[c].batch;
      }
    }
  }

  lemma RunMore(acts: seq<Action>, more: seq<Action>)
    requires more != [] && AllPossible(acts + more)
    ensures var before := acts + more[..|more| - 1];
            AllPossible(before) && Possible(Run(before), more[|more| - 1])
            && Run(acts + more) == Do(Run(before), more[|more| - 1])
  {
    hide Possible, Do;
    var all := acts + more;
    assert all[..|all| - 1] == acts + more[..|more| - 1];
  }

  /** A stuck message is never looked at again by its group, whatever the bus does next. */
  lemma {:induction false} StuckForever(acts: seq<Action>, name: string, m: nat, more: seq<Action>)
    requires AllPossible(acts) && name in Run(acts).groups && Stuck(Run(acts).groups[name], m)
    requires AllPossible(acts + more)
    ensures name in Run(acts + more).groups && Stuck(Run(acts + more).groups[name], m)
    ensures StatusOf(Run(acts + more).groups[name], m) == StatusOf(Run(acts).groups[name], m)
    decreases |more|
  {
    hide Stuck, After, Enabled, StatusOf, Run, AllPossible;
    if more == [] {
      assert acts + more == acts;
    } else {
      var n := |more| - 1;
      RunMore(acts, more);
      StuckForever(acts, name, m, more[..n]);
      var w := Run(acts + more[..n]);
      if more[n].InGroup? && more[n].name == name {
        StuckStays(w.groups[name], more[n].step, m, w.length);
      }
    }
  }

  /** A crash loses what the consumer had in its batch: whatever happens next, it stays as it was. */
  lemma CrashLosesBatch(acts: seq<Action>, name: string, c: nat, i: nat, more: seq<Action>)
    requires AllPossible(acts) && name in Run(acts).groups
    requires AllPossible(acts + [InGroup(name, Crash(c))] + more)
    requires c < |Run(acts).groups[name].consumers| && i < |Run(acts).groups[name].consumers[c].batch|
    ensures var m := Run(acts).groups[name].consumers[c].batch[i];
            var later := Run(acts + [InGroup(name, Crash(c))] + more);
            && name in later.groups && Stuck(later.groups[name], m)
            && StatusOf(later.groups[name], m) == StatusOf(Run(acts).groups[name], m)
  {
    hide StatusOf, Stuck, GroupOk;
    var crash := InGroup(name, Crash(c));
    var g := Run(acts).groups[name];
    AllPossiblePrefix(acts + [crash], more);
    RunSnoc(acts, crash);
    ReachableOk(acts);
    CrashedBatchIsStuck(g, Run(acts).length, c, i);
    StuckForever(acts + [crash], name, g.consumers[c].batch[i], more);
  }

  lemma {:induction false} AllPossiblePrefix(acts: seq<Action>, more: seq<Action>)
    requires AllPossible(acts + more)
    ensures AllPossible(acts)
    decreases |more|
  {
    hide AllPossible;
    if more == [] {
      assert acts + more == acts;
    } else {
      RunMore(acts, more);
      AllPossiblePrefix(acts, more[..|more| - 1]);
    }
  }

  lemma RunSnoc(acts: seq<Action>, a: Action)
    requires AllPossible(acts)
    ensures AllPossible(acts + [a]) <==> Possible(Run(acts), a)
    ensures Possible(Run(acts), a) ==> Run(acts + [a]) == Do(Run(acts), a)
  {
    hide Possible, Do;
    assert (acts + [a])[..|acts|] == acts;
  }

  lemma CrashedBatchIsStuck(g: Group, length: nat, c: nat, i: nat)
    requires GroupOk(g, length) && Enabled(g, Crash(c), length) && i < |g.consumers[c].batch|
    ensures Stuck(After(g, Crash(c), length), g.consumers[c].batch[i])
    ensures StatusOf(After(g, Crash(c), length), g.consumers[c].batch[i]) == StatusOf(g, g.consumers[c].batch[i])
  {
    var m := g.consumers[c].batch[i];
    var g' := After(g, Crash(c), length);
    assert BatchFits(g, g.consumers[c]);
    forall d | 0 <= d < |g'.consumers| && g'.consumers[d].alive ensures m !in g'.consumers[d].batch {
      assert d != c && g'.consumers[d] == g.consumers[d];
      assert Disjoint(g.consumers[c].batch, g.consumers[d].batch)
             || Disjoint(g.consumers[d].batch, g.consumers[c].batch);
    }
  }

  // ---------------------------------------------------------------------------
  // When a message can still be dealt with
  // ---------------------------------------------------------------------------

  /** Message `i` of the batch of a live consumer. */
  predicate InHand(g: Group, m: nat, c: nat, i: nat) {
    c < |g.consumers| && g.consumers[c].alive && i < |g.consumers[c].batch| && g.consumers[c].batch[i] == m
  }

  predicate AckedIn(acts: seq<Action>, name: string, m: nat) {
    AllPossible(acts) && name in Run(acts).groups && StatusOf(Run(acts).groups[name], m).acked
  }

  /** The bus can go on in a way that has the message acknowledged. */
  ghost predicate CanBeAcked(acts: seq<Action>, name: string, m: nat) {
    exists more :: AckedIn(acts + more, name, m)
  }

  lemma AckableEarlier(acts: seq<Action>, a: Action, name: string, m: nat)
    requires CanBeAcked(acts + [a], name, m)
    ensures CanBeAcked(acts, name, m)
  {
    hide AckedIn;
    var more :| AckedIn(acts + [a] + more, name, m);
    assert acts + [a] + more == acts + ([a] + more);
  }

  /** A consumer's next step towards an acknowledgement, when nothing goes well before it. */
  function NextStep(g: Group, c: nat): Step
    requires c < |g.consumers|
  {
    match g.consumers[c].stage
    case Next => Unreadable(c)
    case Handling => HandlerRaises(c)
    case Handled => Acked(c)
    case Failed => DeadLettered(c)
    case Buried => Acked(c)
  }

  /** The most steps the first message of a batch may still need. */
  function StepsLeft(stage: Stage): nat {
    match stage
    case Next => 3
    case Handling => 3
    case Handled => 1
    case Failed => 2
    case Buried => 1
  }

  lemma NextStepHelps(g: Group, m: nat, c: nat, i: nat, length: nat)
    requires InHand(g, m, c, i)
    ensures Enabled(g, NextStep(g, c), length)
    ensures var g' := After(g, NextStep(g, c), length);
            || StatusOf(g', m).acked
            || (InHand(g', m, c, i) && StepsLeft(g'.consumers[c].stage) < StepsLeft(g.consumers[c].stage))
            || (i > 0 && InHand(g', m, c, i - 1))
  {
  }

  lemma AckedHere(acts: seq<Action>, name: string, m: nat)
    requires AckedIn(acts, name, m)
    ensures CanBeAcked(acts, name, m)
  {
    assert acts + [] == acts;
  }

  lemma {:induction false} InHandCanBeAcked(acts: seq<Action>, name: string, m: nat, c: nat, i: nat)
    requires AllPossible(acts) && name in Run(acts).groups && InHand(Run(acts).groups[name], m, c, i)
    ensures CanBeAcked(acts, name, m)
    decreases i, StepsLeft(Run(acts).groups[name].consumers[c].stage)
  {
    hide StatusOf, CanBeAcked, After, Enabled, NextStep, Run, AllPossible;
    var w := Run(acts);
    var g := w.groups[name];
    NextStepHelps(g, m, c, i, w.length);
    var a := InGroup(name, NextStep(g, c));
    RunSnoc(acts, a);
    var g' := Run(acts + [a]).groups[name];
    if StatusOf(g', m).acked {
      AckedHere(acts + [a], name, m);
    } else if InHand(g', m, c, i) && StepsLeft(g'.consumers[c].stage) < StepsLeft(g.consumers[c].stage) {
      InHandCanBeAcked(acts + [a], name, m, c, i);
    } else {
      InHandCanBeAcked(acts + [a], name, m, c, i - 1);
    }
    AckableEarlier(acts, a, name, m);
  }

  /** One more consumer joins and reads one message. */
  lemma JoinAndRead(g: Group, length: nat)
    requires g.next < length
    ensures var c := |g.consumers|;
            var g1 := After(g, Join, length);
            && Enabled(g1, Read(c, 1), length)
            && After(g1, Read(c, 1), length).next == g.next + 1
            && InHand(After(g1, Read(c, 1), length), g.next, c, 0)
  {
  }

  lemma {:induction false} UnreadCanBeAcked(acts: seq<Action>, name: string, m: nat)
    requires AllPossible(acts) && name in Run(acts).groups && Run(acts).groups[name].next <= m
    ensures CanBeAcked(acts, name, m)
    decreases m - Run(acts).groups[name].next, m + 1 - Run(acts).length
  {
    hide CanBeAcked, After, Run, AllPossible, InHand;
    var w := Run(acts);
    var g := w.groups[name];
    if w.length <= m {
      RunSnoc(acts, Publish);
      UnreadCanBeAcked(acts + [Publish], name, m);
      AckableEarlier(acts, Publish, name, m);
    } else {
      var c := |g.consumers|;
      var join, read := InGroup(name, Join), InGroup(name, Read(c, 1));
      JoinAndRead(g, w.length);
      RunSnoc(acts, join);
      RunSnoc(acts + [join], read);
      if g.next == m {
        InHandCanBeAcked(acts + [join] + [read], name, m, c, 0);
      } else {
        UnreadCanBeAcked(acts + [join] + [read], name, m);
      }
      AckableEarlier(acts + [join], read, name, m);
      AckableEarlier(acts, join, name, m);
    }
  }

  /**
   * In every reachable state, a message without an acknowledgement can still get one exactly if its group has
   * not read past it or a live consumer has it in its batch.
   */
  lemma AckableExactly(acts: seq<Action>, name: string, m: nat)
    requires AllPossible(acts) && name in Run(acts).groups && !StatusOf(Run(acts).groups[name], m).acked
    ensures var g := Run(acts).groups[name];
            CanBeAcked(acts, name, m) <==> g.next <= m || exists c, i :: InHand(g, m, c, i)
  {
    hide StatusOf, Run, AllPossible;
    var g := Run(acts).groups[name];
    if g.next <= m {
      UnreadCanBeAcked(acts, name, m);
    } else if c: nat, i: nat :| InHand(g, m, c, i) {
      InHandCanBeAcked(acts, name, m, c, i);
    } else {
      NobodyHasIt(g, m);
      if CanBeAcked(acts, name, m) {
        var more :| AckedIn(acts + more, name, m);
        StuckForever(acts, name, m, more);
      }
    }
  }

  lemma NobodyHasIt(g: Group, m: nat)
    requires m < g.next && !exists c, i :: InHand(g, m, c, i)
    ensures Stuck(g, m)
  {
    forall c | 0 <= c < |g.consumers| && g.consumers[c].alive ensures m !in g.consumers[c].batch {
      if m in g.consumers[c].batch {
        var i :| 0 <= i < |g.consumers[c].batch| && g.consumers[c].batch[i] == m;
        assert InHand(g, m, c, i);
      }
    }
  }

  // ---------------------------------------------------------------------------
  // Both handled and dead-lettered
  // ---------------------------------------------------------------------------

  /** The step works on the message. */
  predicate WorksOn(w: World, a: Action, name: string, m: nat, c: nat) {
    && Possible(w, a) && a.InGroup? && a.name == name
    && c < |w.groups[name].consumers| && w.groups[name].consumers[c].batch != []
    && Current(w.groups[name], c) == m
  }

  predicate AckFailsOn(w: World, a: Action, name: string, m: nat) {
    a.InGroup? && a.step.AckFails? && WorksOn(w, a, name, m, a.step.c)
  }

  predicate BuriesOn(w: World, a: Action, name: string, m: nat) {
    a.InGroup? && a.step.DeadLettered? && WorksOn(w, a, name, m, a.step.c)
  }

  /** Step `k` of the run is a failing acknowledgement of the message. */
  predicate AckFailsAt(acts: seq<Action>, k: nat, name: string, m: nat) {
    k < |acts| && AllPossible(acts[..k]) && AckFailsOn(Run(acts[..k]), acts[k], name, m)
  }

  /** Step `k` of the run puts a copy of the message among the dead letters. */
  predicate BuriesAt(acts: seq<Action>, k: nat, name: string, m: nat) {
    k < |acts| && AllPossible(acts[..k]) && BuriesOn(Run(acts[..k]), acts[k], name, m)
  }

  ghost predicate AckFailed(acts: seq<Action>, name: string, m: nat) {
    exists j: nat :: AckFailsAt(acts, j, name, m)
  }

  ghost predicate BuriedAfterAckFailed(acts: seq<Action>, name: string, m: nat) {
    exists j: nat, k: nat :: j < k && AckFailsAt(acts, j, name, m) && BuriesAt(acts, k, name, m)
  }

  lemma HistorySnoc(acts: seq<Action>, a: Action, name: string, m: nat)
    requires AllPossible(acts)
    ensures AckFailed(acts + [a], name, m) <==> AckFailed(acts, name, m) || AckFailsOn(Run(acts), a, name, m)
    ensures BuriedAfterAckFailed(acts + [a], name, m) <==>
            BuriedAfterAckFailed(acts, name, m) || (AckFailed(acts, name, m) && BuriesOn(Run(acts), a, name, m))
  {
    hide Run, AllPossible, AckFailsOn, BuriesOn;
    var all, n := acts + [a], |acts|;
    assert all[..n] == acts && all[n] == a;
    forall k: nat | k < n ensures
      (AckFailsAt(all, k, name, m) <==> AckFailsAt(acts, k, name, m))
      && (BuriesAt(all, k, name, m) <==> BuriesAt(acts, k, name, m))
    {
      assert all[..k] == acts[..k];
    }
    assert AckFailsAt(all, n, name, m) <==> AckFailsOn(Run(acts), a, name, m);
    assert BuriesAt(all, n, name, m) <==> BuriesOn(Run(acts), a, name, m);
    hide AckFailsAt, BuriesAt;
    HistoryBounds(all, name, m);
    HistoryBounds(acts, name, m);
    if j: nat, k: nat :| j < k && AckFailsAt(all, j, name, m) && BuriesAt(all, k, name, m) {
      assert AckFailsAt(acts, j, name, m);
    }
    if AckFailed(acts, name, m) && BuriesOn(Run(acts), a, name, m) {
      var j: nat :| AckFailsAt(acts, j, name, m);
      assert AckFailsAt(all, j, name, m) && j < n && BuriesAt(all, n, name, m);
    }
  }

  lemma HistoryBounds(acts: seq<Action>, name: string, m: nat)
    ensures forall k: nat :: AckFailsAt(acts, k, name, m) || BuriesAt(acts, k, name, m) ==> k < |acts|
  {
    hide AllPossible, Run;
  }

  /** A handled message that is first in a batch and bound for the dead letters had an acknowledgement fail. */
  ghost predicate Explained(g: Group, m: nat, failed: bool) {
    forall c | 0 <= c < |g.consumers| && g.consumers[c].batch != [] && g.consumers[c].batch[0] == m ::
      g.consumers[c].stage in {Failed, Buried} && StatusOf(g, m).handled ==> failed
  }

  ghost predicate HistoryFits(g: Group, m: nat, failed: bool, both: bool) {
    && (failed ==> StatusOf(g, m).handled)
    && (both <==> StatusOf(g, m).handled && StatusOf(g, m).dead >= 1)
    && Explained(g, m, failed)
  }

  predicate OnCurrent(g: Group, c: nat, m: nat) {
    c < |g.consumers| && g.consumers[c].batch != [] && Current(g, c) == m
  }

  /** The steps that leave the first messages of the batches, and what is known of them, alone. */
  lemma QuietStepFits(g: Group, s: Step, m: nat, length: nat, failed: bool, both: bool)
    requires GroupOk(g, length) && Enabled(g, s, length) && HistoryFits(g, m, failed, both)
    requires s.Join? || s.Read? || s.Crash?
    ensures HistoryFits(After(g, s, length), m, failed, both)
  {
    hide Sound, GroupOk;
  }

  lemma StageFits(g: Group, s: Step, m: nat, length: nat, failed: bool, both: bool)
    requires GroupOk(g, length) && Enabled(g, s, length) && HistoryFits(g, m, failed, both)
    requires s.Start? || s.Unreadable? || s.HandlerDone? || s.HandlerRaises?
    ensures HistoryFits(After(g, s, length), m, failed, both)
  {
    CurrentStep(g, s.c, m, length);
    hide Sound, GroupOk;
  }

  /** One step of the group, and what it adds to the history of the message. */
  lemma StepFits(g: Group, s: Step, m: nat, length: nat, failed: bool, both: bool)
    requires GroupOk(g, length) && Enabled(g, s, length) && HistoryFits(g, m, failed, both)
    ensures HistoryFits(After(g, s, length), m, failed || (s.AckFails? && OnCurrent(g, s.c, m)),
                        both || (failed && s.DeadLettered? && OnCurrent(g, s.c, m)))
  {
    if s.Join? || s.Read? || s.Crash? {
      QuietStepFits(g, s, m, length, failed, both);
    } else if s.Acked? || s.AckFails? || s.DeadLettered? {
      CurrentStep(g, s.c, m, length);
      hide Sound, GroupOk;
    } else {
      StageFits(g, s, m, length, failed, both);
    }
  }

  /** A message first in the batch of one consumer fits its stage and is first for no other. */
  lemma CurrentStep(g: Group, c: nat, m: nat, length: nat)
    requires GroupOk(g, length) && c < |g.consumers| && g.consumers[c].batch != []
    ensures Fits(StatusOf(g, Current(g, c)), g.consumers[c].stage)
    ensures forall d | 0 <= d < |g.consumers| && d != c && g.consumers[d].batch != [] ::
              g.consumers[d].batch[0] != Current(g, c)
    ensures forall i | 1 <= i < |g.consumers[c].batch| :: StatusOf(g, g.consumers[c].batch[i]) == UNTOUCHED
  {
    assert BatchFits(g, g.consumers[c]);
    hide Fits, Sound, BatchFits;
    forall d | 0 <= d < |g.consumers| && d != c && g.consumers[d].batch != []
      ensures g.consumers[d].batch[0] != Current(g, c)
    {
      assert Disjoint(g.consumers[c].batch, g.consumers[d].batch)
             || Disjoint(g.consumers[d].batch, g.consumers[c].batch);
    }
  }

  lemma NoHistoryYet(length: nat, m: nat)
    ensures HistoryFits(Group(length, length, map[], []), m, false, false)
  {
  }

  lemma WorksOnCurrent(w: World, name: string, s: Step, m: nat)
    requires Possible(w, InGroup(name, s))
    ensures AckFailsOn(w, InGroup(name, s), name, m) <==> s.AckFails? && OnCurrent(w.groups[name], s.c, m)
    ensures BuriesOn(w, InGroup(name, s), name, m) <==> s.DeadLettered? && OnCurrent(w.groups[name], s.c, m)
  {
  }

  lemma {:induction false} RunFits(acts: seq<Action>, name: string, m: nat)
    requires AllPossible(acts)
    ensures var failed, both := AckFailed(acts, name, m), BuriedAfterAckFailed(acts, name, m);
            if name in Run(acts).groups then HistoryFits(Run(acts).groups[name], m, failed, both)
            else !failed && !both
    decreases |acts|
  {
    hide HistoryFits, After, Enabled, GroupOk, AckFailsAt, BuriesAt;
    if acts == [] {
      NoStepYet(name, m);
    } else {
      var n := |acts| - 1;
      var w, a := Run(acts[..n]), acts[n];
      RunFits(acts[..n], name, m);
      HistorySnoc(acts[..n], a, name, m);
      assert acts == acts[..n] + [a];
      hide AckFailed, BuriedAfterAckFailed;
      ReachableOk(acts[..n]);
      if a.CreateGroup? {
        NoHistoryYet(w.length, m);
      } else if a.InGroup? && a.name == name {
        WorksOnCurrent(w, name, a.step, m);
        StepFits(w.groups[name], a.step, m, w.length, AckFailed(acts[..n], name, m),
                 BuriedAfterAckFailed(acts[..n], name, m));
      }
    }
  }

  lemma NoStepYet(name: string, m: nat)
    ensures !AckFailed([], name, m) && !BuriedAfterAckFailed([], name, m)
  {
  }

  /**
   * Over every run: a message is both handled and dead-lettered exactly if an acknowledgement of it failed and
   * a later step put a copy of it among the dead letters.
   */
  lemma HandledAndDeadExactly(acts: seq<Action>, name: string, m: nat)
    requires AllPossible(acts) && name in Run(acts).groups
    ensures var s := StatusOf(Run(acts).groups[name], m);
            s.handled && s.dead >= 1 <==>
            exists j: nat, k: nat :: j < k && AckFailsAt(acts, j, name, m) && BuriesAt(acts, k, name, m)
  {
    RunFits(acts, name, m);
    hide Run, AllPossible, AckFailsAt, BuriesAt;
  }

  lemma AckFailsThenBuried(g: Group, c: nat, length: nat)
    requires GroupOk(g, length) && Working(g, c, Handled)
    ensures Enabled(g, AckFails(c, false), length)
    ensures var g1 := After(g, AckFails(c, false), length);
            Enabled(g1, DeadLettered(c), length)
            && var g2 := After(g1, DeadLettered(c), length);
            Enabled(g2, Acked(c), length)
            && var s := StatusOf(After(g2, Acked(c), length), Current(g, c));
            s.handled && s.dead == 1 && s.acked
  {
    InHandSound(g, c, length);
    hide GroupOk, Sound;
  }

  /** Where a reachable consumer is done with its handler, the run can go on to have the message both ways. */
  lemma HandledAndDead(acts: seq<Action>, name: string, c: nat)
    requires AllPossible(acts) && name in Run(acts).groups && Working(Run(acts).groups[name], c, Handled)
    ensures var m := Current(Run(acts).groups[name], c);
            var later := acts + [InGroup(name, AckFails(c, false))] + [InGroup(name, DeadLettered(c))]
                              + [InGroup(name, Acked(c))];
            AllPossible(later) && name in Run(later).groups
            && var s := StatusOf(Run(later).groups[name], m); s.handled && s.dead == 1 && s.acked
  {
    var a1, a2, a3 := InGroup(name, AckFails(c, false)), InGroup(name, DeadLettered(c)), InGroup(name, Acked(c));
    ReachableOk(acts);
    AckFailsThenBuried(Run(acts).groups[name], c, Run(acts).length);
    hide Run, AllPossible, GroupOk, After, Enabled;
    RunSnoc(acts, a1);
    RunSnoc(acts + [a1], a2);
    RunSnoc(acts + [a1] + [a2], a3);
  }

  /** Such a consumer is reached: one group, one message, one handler that finishes. */
  lemma HandlerFinishes(name: string)
    ensures var acts := [CreateGroup(name)] + [Publish] + [InGroup(name, Join)] + [InGroup(name, Read(0, 1))]
                        + [InGroup(name, Start(0))] + [InGroup(name, HandlerDone(0))];
            AllPossible(acts) && name in Run(acts).groups && Working(Run(acts).groups[name], 0, Handled)
  {
    var a1, a2, a3, a4 := CreateGroup(name), Publish, InGroup(name, Join), InGroup(name, Read(0, 1));
    var a5, a6 := InGroup(name, Start(0)), InGroup(name, HandlerDone(0));
    assert AllPossible([]) && Run([]) == World(0, map[]);
    hide Run, AllPossible;
    assert [] + [a1] == [a1];
    RunSnoc([], a1);
    RunSnoc([a1], a2);
    RunSnoc([a1] + [a2], a3);
    RunSnoc([a1] + [a2] + [a3], a4);
    RunSnoc([a1] + [a2] + [a3] + [a4], a5);
    RunSnoc([a1] + [a2] + [a3] + [a4] + [a5], a6);
  }

  // ---------------------------------------------------------------------------
  // A message whose handler raised
  // ---------------------------------------------------------------------------

  predicate RaisesOn(w: World, a: Action, name: string, m: nat) {
    a.InGroup? && a.step.HandlerRaises? && WorksOn(w, a, name, m, a.step.c)
  }

  predicate RaisesAt(acts: seq<Action>, k: nat, name: string, m: nat) {
    k < |acts| && AllPossible(acts[..k]) && RaisesOn(Run(acts[..k]), acts[k], name, m)
  }

  ghost predicate Raised(acts: seq<Action>, name: string, m: nat) {
    exists k: nat :: RaisesAt(acts, k, name, m)
  }

  /** The consumer has the message first in its batch, on its way to the dead letters. */
  ghost predicate OnItsWay(g: Group, m: nat, c: nat) {
    OnCurrent(g, c, m) && g.consumers[c].stage in {Failed, Buried}
  }

  /** Not handled, and either acknowledged with one dead-letter copy, or on the way there. */
  ghost predicate DeadOrDying(g: Group, m: nat) {
    && !StatusOf(g, m).handled
    && ((StatusOf(g, m).acked && StatusOf(g, m).dead == 1) || exists c: nat :: OnItsWay(g, m, c))
  }

  lemma RaisedSnoc(acts: seq<Action>, a: Action, name: string, m: nat)
    requires AllPossible(acts)
    ensures Raised(acts + [a], name, m) <==> Raised(acts, name, m) || RaisesOn(Run(acts), a, name, m)
  {
    hide Run, AllPossible, RaisesOn;
    var all, n := acts + [a], |acts|;
    assert all[..n] == acts && all[n] == a;
    forall k: nat | k < n ensures RaisesAt(all, k, name, m) <==> RaisesAt(acts, k, name, m) {
      assert all[..k] == acts[..k];
    }
    assert RaisesAt(all, n, name, m) <==> RaisesOn(Run(acts), a, name, m);
    RaisedBounds(all, name, m);
    RaisedBounds(acts, name, m);
    hide RaisesAt;
    if k: nat :| RaisesAt(all, k, name, m) {
      assert k < n ==> RaisesAt(acts, k, name, m);
    }
    if k: nat :| RaisesAt(acts, k, name, m) {
      assert RaisesAt(all, k, name, m);
    }
  }

  lemma RaisedBounds(acts: seq<Action>, name: string, m: nat)
    ensures forall k: nat :: RaisesAt(acts, k, name, m) ==> k < |acts|
  {
    hide AllPossible, Run;
  }

  /** A step of the consumer that has the message in hand takes it on; steps of others leave it. */
  lemma StaysOnItsWay(g: Group, s: Step, m: nat, length: nat)
    requires GroupOk(g, length) && Enabled(g, s, length) && DeadOrDying(g, m)
    ensures DeadOrDying(After(g, s, length), m)
  {
    var g' := After(g, s, length);
    if StatusOf(g, m).acked && StatusOf(g, m).dead == 1 {
      DeadStays(g, s, m, length);
    } else {
      var c: nat :| OnItsWay(g, m, c);
      OnItsWayStays(g, s, m, c, length);
    }
  }

  lemma DeadStays(g: Group, s: Step, m: nat, length: nat)
    requires GroupOk(g, length) && Enabled(g, s, length)
    requires StatusOf(g, m).acked && StatusOf(g, m).dead == 1 && !StatusOf(g, m).handled
    ensures DeadOrDying(After(g, s, length), m)
  {
    if s.Join? || s.Read? || s.Crash? {
      hide GroupOk, Sound, OnItsWay;
    } else {
      CurrentStep(g, s.c, m, length);
      hide GroupOk, Sound;
    }
  }

  lemma OnItsWayStays(g: Group, s: Step, m: nat, c: nat, length: nat)
    requires GroupOk(g, length) && Enabled(g, s, length) && OnItsWay(g, m, c)
    requires !StatusOf(g, m).handled
    ensures DeadOrDying(After(g, s, length), m)
  {
    CurrentStep(g, c, m, length);
    hide GroupOk, Sound;
    var g' := After(g, s, length);
    if s == Acked(c) {
      assert StatusOf(g', m).acked && StatusOf(g', m).dead == 1;
    } else {
      assert OnItsWay(g', m, c);
    }
  }

  lemma RaisesMeans(w: World, name: string, s: Step, m: nat)
    requires Possible(w, InGroup(name, s))
    ensures RaisesOn(w, InGroup(name, s), name, m) <==> s.HandlerRaises? && OnCurrent(w.groups[name], s.c, m)
  {
  }

  lemma RaisingStarts(g: Group, c: nat, m: nat, length: nat)
    requires GroupOk(g, length) && Enabled(g, HandlerRaises(c), length) && OnCurrent(g, c, m)
    ensures DeadOrDying(After(g, HandlerRaises(c), length), m)
  {
    InHandSound(g, c, length);
    hide GroupOk, Sound;
    assert OnItsWay(After(g, HandlerRaises(c), length), m, c);
  }

  lemma {:induction false} RaisedRuns(acts: seq<Action>, name: string, m: nat)
    requires AllPossible(acts) && Raised(acts, name, m)
    ensures name in Run(acts).groups && DeadOrDying(Run(acts).groups[name], m)
    decreases |acts|
  {
    hide After, Enabled, GroupOk, RaisesAt, DeadOrDying;
    if acts == [] {
      RaisedBounds([], name, m);
    } else {
      var n := |acts| - 1;
      var w, a := Run(acts[..n]), acts[n];
      RaisedSnoc(acts[..n], a, name, m);
      assert acts == acts[..n] + [a];
      hide Raised;
      ReachableOk(acts[..n]);
      if Raised(acts[..n], name, m) {
        RaisedRuns(acts[..n], name, m);
        if a.InGroup? && a.name == name {
          StaysOnItsWay(w.groups[name], a.step, m, w.length);
        }
      } else {
        RaisesMeans(w, a.name, a.step, m);
        RaisingStarts(w.groups[name], a.step.c, m, w.length);
      }
    }
  }

  lemma InHandIsNotAcked(g: Group, m: nat, c: nat, length: nat)
    requires GroupOk(g, length) && !StatusOf(g, m).handled && OnItsWay(g, m, c)
    ensures !StatusOf(g, m).acked
  {
    InHandSound(g, c, length);
  }

  /**
   * Over every run: a message whose handler raised is acknowledged exactly if no consumer, working or crashed,
   * has it in hand any longer; and then it has one dead-letter copy.
   */
  lemma RaisedIsNotLeftPending(acts: seq<Action>, name: string, m: nat)
    requires AllPossible(acts) && Raised(acts, name, m)
    ensures name in Run(acts).groups
    ensures var g := Run(acts).groups[name];
            && !StatusOf(g, m).handled
            && (StatusOf(g, m).acked <==> forall c: nat :: !OnItsWay(g, m, c))
            && (StatusOf(g, m).acked ==> StatusOf(g, m).dead == 1)
  {
    RaisedRuns(acts, name, m);
    ReachableOk(acts);
    var w := Run(acts);
    var g := w.groups[name];
    hide Run, AllPossible, GroupOk, OnItsWay;
    forall c: nat | OnItsWay(g, m, c) ensures !StatusOf(g, m).acked {
      InHandIsNotAcked(g, m, c, w.length);
    }
  }
}
