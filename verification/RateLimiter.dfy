/** The token bucket that paces requests to each host. Clock readings are parameters. */
module RateLimiter {
  datatype Bucket = Bucket(tokens: real, last: real)

  datatype Settings = Settings(rate: real, burst: nat)

  /** One `acquire`: the clock when the lock was obtained, and the clock after the sleep, if there was one. */
  datatype Call = Call(host: string, now: real, woke: real)

  predicate Sane(cfg: Settings) {
    cfg.rate > 0.0 && cfg.burst >= 1
  }

  function Min(a: real, b: real): real {
    if a <= b then a else b
  }

  /** What the rate brings in a stretch of time. */
  function Gain(rate: real, time: real): real {
    time * rate
  }

  lemma GainBetween(rate: real, x: real, y: real, z: real)
    ensures Gain(rate, z - x) == Gain(rate, z - y) + Gain(rate, y - x)
    ensures Gain(rate, x - x) == 0.0
  {
  }

  lemma GainGrows(rate: real, x: real, y: real)
    requires rate > 0.0 && x <= y
    ensures Gain(rate, x) <= Gain(rate, y) && Gain(rate, 0.0) == 0.0
  {
  }

  function BucketOf(state: map<string, Bucket>, c: Call, cfg: Settings): Bucket {
    if c.host in state then state[c.host] else Bucket(cfg.burst as real, c.now)
  }

  /** The tokens when the lock was obtained. */
  function Available(state: map<string, Bucket>, c: Call, cfg: Settings): real {
    var b := BucketOf(state, c, cfg);
    Min(cfg.burst as real, b.tokens + Gain(cfg.rate, c.now - b.last))
  }

  predicate MustWait(state: map<string, Bucket>, c: Call, cfg: Settings) {
    Available(state, c, cfg) < 1.0
  }

  function WaitFor(state: map<string, Bucket>, c: Call, cfg: Settings): real
    requires cfg.rate > 0.0
  {
    (1.0 - Available(state, c, cfg)) / cfg.rate
  }

  /** When the call returns. */
  function GrantTime(state: map<string, Bucket>, c: Call, cfg: Settings): real {
    if MustWait(state, c, cfg) then c.woke else c.now
  }

  /** The clock does not run backwards and a sleep is no shorter than asked for. */
  predicate Timely(state: map<string, Bucket>, c: Call, cfg: Settings)
    requires cfg.rate > 0.0
  {
    && (c.host in state ==> state[c.host].last <= c.now)
    && (MustWait(state, c, cfg) ==> c.woke >= c.now + WaitFor(state, c, cfg))
  }

  function After(state: map<string, Bucket>, c: Call, cfg: Settings): map<string, Bucket> {
    state[c.host := Bucket(if MustWait(state, c, cfg) then 0.0
      else Available(state, c, cfg) - 1.0, GrantTime(state, c, cfg))]
  }

  class RateLimiter {
    const cfg: Settings
    var state: map<string, Bucket>

    constructor (rate: real, burst: nat)
      ensures cfg == Settings(rate, burst) && state == map[]
    {
      cfg := Settings(rate, burst);
      state := map[];
    }

    /**
     * Waits until the host's bucket holds a token, and takes it. Returns the clock at the grant, and how long a
     * sleep was asked for.
     */
    method Acquire(c: Call) returns (granted: real, asked: real)
      requires Sane(cfg) && Timely(state, c, cfg)
      modifies this
      ensures state == After(old(state), c, cfg) && granted == GrantTime(old(state), c, cfg)
      ensures asked == if MustWait(old(state), c, cfg) then WaitFor(old(state), c, cfg) else 0.0
    {
      hide Timely, Gain;
      var bucket := if c.host in state then state[c.host] else Bucket(cfg.burst as real, c.now);
      var tokens := Min(cfg.burst as real, bucket.tokens + Gain(cfg.rate, c.now - bucket.last));
      var now := c.now;
      asked := 0.0;
      if tokens < 1.0 {
        asked := (1.0 - tokens) / cfg.rate;
        tokens := 0.0;
        now := c.woke;
      } else {
        tokens := tokens - 1.0;
      }
      state := state[c.host := Bucket(tokens, now)];
      granted := now;
    }
  }

  // ---------------------------------------------------------------------------
  // Runs
  // ---------------------------------------------------------------------------

  function Run(calls: seq<Call>, cfg: Settings): map<string, Bucket> {
    if calls == [] then map[] else After(Run(calls[..|calls| - 1], cfg), calls[|calls| - 1], cfg)
  }

  ghost predicate TimelyRun(calls: seq<Call>, cfg: Settings)
    requires cfg.rate > 0.0
  {
    forall i | 0 <= i < |calls| :: Timely(Run(calls[..i], cfg), calls[i], cfg)
  }

  /** When each request to the host was let through, in order. */
  function Grants(calls: seq<Call>, host: string, cfg: Settings): seq<real> {
    if calls == [] then []
    else
      var n := |calls| - 1;
      Grants(calls[..n], host, cfg)
      + (if calls[n].host == host then [GrantTime(Run(calls[..n], cfg), calls[n], cfg)] else [])
  }

  // ---------------------------------------------------------------------------
  // The bound
  // ---------------------------------------------------------------------------

  predicate InBounds(b: Bucket, cfg: Settings) {
    0.0 <= b.tokens <= cfg.burst as real - 1.0
  }

  /** Each request from the `i`th on is paid for by a token left in the bucket at first, or by one gained since. */
  ghost predicate Paid(gs: seq<real>, b: Bucket, cfg: Settings) {
    && gs != [] && gs[|gs| - 1] == b.last
    && forall i | 0 <= i < |gs| :: b.tokens + (|gs| - i) as real <= cfg.burst as real + Gain(cfg.rate, b.last - gs[i])
  }

  /** The requests from `i` to `j`, both counted, are no more than the burst and the time between them allow. */
  ghost predicate Spaced(gs: seq<real>, i: nat, j: nat, cfg: Settings)
    requires i <= j < |gs|
  {
    gs[i] <= gs[j] && (j - i + 1) as real <= cfg.burst as real + Gain(cfg.rate, gs[j] - gs[i])
  }

  ghost predicate Paced(gs: seq<real>, cfg: Settings) {
    forall i, j | 0 <= i <= j < |gs| :: Spaced(gs, i, j, cfg)
  }

  lemma WaitPays(rate: real, a: real, now: real, woke: real)
    requires rate > 0.0 && woke >= now + (1.0 - a) / rate
    ensures Gain(rate, woke - now) >= 1.0 - a
  {
    var w := (1.0 - a) / rate;
    assert Gain(rate, w) == 1.0 - a;
    GainGrows(rate, w, woke - now);
  }

  /** One token was taken, out of what was left and what the time between has brought. */
  ghost predicate TookOne(b: Bucket, b': Bucket, cfg: Settings) {
    b.last <= b'.last && b'.tokens + 1.0 <= b.tokens + Gain(cfg.rate, b'.last - b.last)
  }

  /** A grant takes one token, out of what was left and what the time since has brought. */
  lemma GrantCosts(state: map<string, Bucket>, c: Call, cfg: Settings)
    requires Sane(cfg) && Timely(state, c, cfg)
    requires c.host in state ==> 0.0 <= state[c.host].tokens
    ensures var b, b' := BucketOf(state, c, cfg), After(state, c, cfg)[c.host];
            InBounds(b', cfg) && c.now <= b'.last && TookOne(b, b', cfg)
  {
    var b, b', a := BucketOf(state, c, cfg), After(state, c, cfg)[c.host], Available(state, c, cfg);
    hide Gain;
    GainGrows(cfg.rate, 0.0, c.now - b.last);
    if MustWait(state, c, cfg) {
      WaitPays(cfg.rate, a, c.now, c.woke);
      WaitIsPositive(cfg.rate, a);
      GainBetween(cfg.rate, b.last, c.now, c.woke);
    }
  }

  lemma WaitIsPositive(rate: real, a: real)
    requires rate > 0.0 && a < 1.0
    ensures (1.0 - a) / rate > 0.0
  {
  }

  lemma PaysOn(gs: seq<real>, b: Bucket, b': Bucket, cfg: Settings)
    requires Sane(cfg) && Paid(gs, b, cfg) && InBounds(b', cfg) && TookOne(b, b', cfg)
    ensures Paid(gs + [b'.last], b', cfg)
  {
    hide Gain;
    var longer := gs + [b'.last];
    forall i | 0 <= i < |longer|
      ensures b'.tokens + (|longer| - i) as real <= cfg.burst as real + Gain(cfg.rate, b'.last - longer[i])
    {
      if i < |gs| {
        GainBetween(cfg.rate, gs[i], b.last, b'.last);
      } else {
        GainBetween(cfg.rate, b'.last, b'.last, b'.last);
      }
    }
  }

  lemma PacedOn(older: seq<real>, b: Bucket, cfg: Settings)
    requires Paced(older, cfg) && Paid(older + [b.last], b, cfg) && 0.0 <= b.tokens
    requires older != [] ==> older[|older| - 1] <= b.last
    ensures Paced(older + [b.last], cfg)
  {
    hide Gain, Paid;
    var n := |older|;
    var gs := older + [b.last];
    forall i, j | 0 <= i <= j < |gs| ensures Spaced(gs, i, j, cfg) {
      if j < n {
        assert Spaced(older, i, j, cfg);
      } else {
        PaidSpaces(gs, b, i, cfg);
        if i < n { assert Spaced(older, i, n - 1, cfg); }
      }
    }
  }

  lemma PaidSpaces(gs: seq<real>, b: Bucket, i: nat, cfg: Settings)
    requires Paid(gs, b, cfg) && i < |gs| && 0.0 <= b.tokens
    ensures (|gs| - i) as real <= cfg.burst as real + Gain(cfg.rate, gs[|gs| - 1] - gs[i])
  {
    hide Gain;
    assert gs[|gs| - 1] == b.last;
    assert b.tokens + (|gs| - i) as real <= cfg.burst as real + Gain(cfg.rate, b.last - gs[i]);
  }

  ghost predicate HostOk(calls: seq<Call>, host: string, cfg: Settings) {
    var state, gs := Run(calls, cfg), Grants(calls, host, cfg);
    && Paced(gs, cfg)
    && (host in state <==> gs != [])
    && (host in state ==> InBounds(state[host], cfg) && Paid(gs, state[host], cfg))
  }

  lemma OtherHost(calls: seq<Call>, c: Call, host: string, cfg: Settings)
    requires HostOk(calls, host, cfg) && c.host != host
    ensures HostOk(calls + [c], host, cfg)
  {
    hide Paced, Paid, InBounds, Available, MustWait, GrantTime;
    assert (calls + [c])[..|calls|] == calls;
    assert Grants(calls, host, cfg) + [] == Grants(calls, host, cfg);
  }

  lemma FirstGrant(b: Bucket, cfg: Settings)
    requires InBounds(b, cfg)
    ensures Paid([b.last], b, cfg) && Paced([], cfg)
  {
    hide Gain;
    GainBetween(cfg.rate, b.last, b.last, b.last);
  }

  lemma OneMoreCall(calls: seq<Call>, c: Call, cfg: Settings)
    ensures Run(calls + [c], cfg) == After(Run(calls, cfg), c, cfg)
    ensures Grants(calls + [c], c.host, cfg) == Grants(calls, c.host, cfg)
            + [After(Run(calls, cfg), c, cfg)[c.host].last]
  {
    hide Available, MustWait, GrantTime;
    assert (calls + [c])[..|calls|] == calls;
  }

  lemma TookLater(b: Bucket, b': Bucket, cfg: Settings)
    requires TookOne(b, b', cfg)
    ensures b.last <= b'.last
  {
    hide Gain;
  }

  lemma GrantKeepsPace(gs: seq<real>, b: Bucket, b': Bucket, cfg: Settings)
    requires Sane(cfg) && Paced(gs, cfg) && InBounds(b', cfg)
    requires gs != [] ==> Paid(gs, b, cfg) && TookOne(b, b', cfg)
    ensures Paced(gs + [b'.last], cfg) && Paid(gs + [b'.last], b', cfg)
  {
    hide Paced, Paid, InBounds, Spaced, Gain, TookOne;
    Bounded(b', cfg);
    FirstGrant(b', cfg);
    if gs == [] {
      assert gs + [b'.last] == [b'.last];
    } else {
      PaysOn(gs, b, b', cfg);
      LastIs(gs, b, cfg);
      TookLater(b, b', cfg);
    }
    PacedOn(gs, b', cfg);
  }

  lemma SameHost(calls: seq<Call>, c: Call, cfg: Settings)
    requires Sane(cfg) && HostOk(calls, c.host, cfg) && Timely(Run(calls, cfg), c, cfg)
    ensures HostOk(calls + [c], c.host, cfg)
  {
    hide Paced, Paid, Available, MustWait, Timely, Run, Grants, GrantTime, InBounds, TookOne;
    var state, gs := Run(calls, cfg), Grants(calls, c.host, cfg);
    if c.host in state { Bounded(state[c.host], cfg); }
    GrantCosts(state, c, cfg);
    var b' := After(state, c, cfg)[c.host];
    GrantKeepsPace(gs, BucketOf(state, c, cfg), b', cfg);
    OneMoreCall(calls, c, cfg);
  }

  lemma Bounded(b: Bucket, cfg: Settings)
    requires InBounds(b, cfg)
    ensures 0.0 <= b.tokens
  {
  }

  lemma LastIs(gs: seq<real>, b: Bucket, cfg: Settings)
    requires Paid(gs, b, cfg)
    ensures gs != [] && gs[|gs| - 1] == b.last
  {
  }

  lemma {:induction false} EveryHostOk(calls: seq<Call>, host: string, cfg: Settings)
    requires Sane(cfg) && TimelyRun(calls, cfg)
    ensures HostOk(calls, host, cfg)
    decreases |calls|
  {
    hide HostOk, Timely;
    if calls == [] {
      NoCalls(host, cfg);
    } else {
      var n := |calls| - 1;
      assert forall i | 0 <= i < n :: calls[..n][..i] == calls[..i];
      EveryHostOk(calls[..n], host, cfg);
      assert calls == calls[..n] + [calls[n]];
      if calls[n].host == host {
        SameHost(calls[..n], calls[n], cfg);
      } else {
        OtherHost(calls[..n], calls[n], host, cfg);
      }
    }
  }

  lemma NoCalls(host: string, cfg: Settings)
    ensures HostOk([], host, cfg)
  {
  }

  /**
   * In any run over any hosts, between any two requests let through to one host there are, both counted, at
   * most `burst` plus what the rate allows in the time between them; and every bucket stays within its bounds.
   */
  lemma RequestsArePaced(calls: seq<Call>, host: string, cfg: Settings, i: nat, j: nat)
    requires Sane(cfg) && TimelyRun(calls, cfg)
    requires i <= j < |Grants(calls, host, cfg)|
    ensures Spaced(Grants(calls, host, cfg), i, j, cfg)
    ensures host in Run(calls, cfg) && InBounds(Run(calls, cfg)[host], cfg)
  {
    hide TimelyRun, InBounds, Paid, Run, Grants;
    EveryHostOk(calls, host, cfg);
  }

  function Volley(host: string, now: real, k: nat): seq<Call> {
    if k == 0 then [] else Volley(host, now, k - 1) + [Call(host, now, now)]
  }

  /** The bound is reached: that many requests at one instant all go through, and the next one has to wait. */
  lemma {:induction false} BurstGoesThrough(host: string, now: real, k: nat, cfg: Settings)
    requires Sane(cfg) && 1 <= k <= cfg.burst
    ensures TimelyRun(Volley(host, now, k), cfg)
    ensures Run(Volley(host, now, k), cfg) == map[host := Bucket((cfg.burst - k) as real, now)]
    ensures k == cfg.burst ==> MustWait(Run(Volley(host, now, k), cfg), Call(host, now, now), cfg)
    decreases k
  {
    hide TimelyRun, MustWait, Run;
    var calls, c := Volley(host, now, k - 1), Call(host, now, now);
    if k > 1 { BurstGoesThrough(host, now, k - 1, cfg); } else { NothingRun(cfg); }
    FreeGrant(Run(calls, cfg), c, k - 1, cfg);
    OneMoreCall(calls, c, cfg);
    TimelyOn(calls, c, cfg);
    FreeGrant(Run(calls + [c], cfg), c, k, cfg);
  }

  lemma NothingRun(cfg: Settings)
    requires cfg.rate > 0.0
    ensures Run([], cfg) == map[] && TimelyRun([], cfg)
  {
  }

  /** At one instant, with `k` tokens gone, there is a token for the next request exactly if `k` is below the burst. */
  lemma FreeGrant(state: map<string, Bucket>, c: Call, k: nat, cfg: Settings)
    requires Sane(cfg) && k <= cfg.burst && c.woke == c.now
    requires state == if k == 0 then map[] else map[c.host := Bucket((cfg.burst - k) as real, c.now)]
    ensures MustWait(state, c, cfg) <==> k == cfg.burst
    ensures k < cfg.burst ==>
              && Timely(state, c, cfg)
              && After(state, c, cfg) == map[c.host := Bucket((cfg.burst - k - 1) as real, c.now)]
  {
    hide Gain;
    GainBetween(cfg.rate, c.now, c.now, c.now);
    assert Available(state, c, cfg) == (cfg.burst - k) as real;
  }

  lemma TimelyOn(calls: seq<Call>, c: Call, cfg: Settings)
    requires cfg.rate > 0.0 && TimelyRun(calls, cfg) && Timely(Run(calls, cfg), c, cfg)
    ensures TimelyRun(calls + [c], cfg)
  {
    hide Timely, Run;
    var all := calls + [c];
    forall i | 0 <= i < |all| ensures Timely(Run(all[..i], cfg), all[i], cfg) {
      if i < |calls| {
        assert all[..i] == calls[..i] && all[i] == calls[i];
      } else {
        assert all[..i] == calls;
      }
    }
  }

  // ---------------------------------------------------------------------------
  // The other side of the bound
  // ---------------------------------------------------------------------------

  /** When each request to the host was made, in order. */
  function Requested(calls: seq<Call>, host: string): seq<real> {
    if calls == [] then []
    else
      var n := |calls| - 1;
      Requested(calls[..n], host) + (if calls[n].host == host then [calls[n].now] else [])
  }

  /** What a grant leaves at most: nothing if the request had to wait, else one less than the burst. */
  function LeftBy(asked: real, granted: real, burst: nat): real {
    if asked < granted then 0.0 else burst as real - 1.0
  }

  /** What is left at `time` of what grant `k` left, with what time has brought since and all later grants took. */
  function Balance(rs: seq<real>, gs: seq<real>, k: nat, time: real, cfg: Settings): real
    requires k < |gs| == |rs|
  {
    LeftBy(rs[k], gs[k], cfg.burst) + Gain(cfg.rate, time - gs[k]) - (|gs| - 1 - k) as real
  }

  /** The bucket holds the least of these balances. */
  ghost predicate IsLeast(rs: seq<real>, gs: seq<real>, b: Bucket, cfg: Settings) {
    && |rs| == |gs| && gs != [] && gs[|gs| - 1] == b.last
    && (forall k | 0 <= k < |gs| :: b.tokens <= Balance(rs, gs, k, b.last, cfg))
    && (exists k :: 0 <= k < |gs| && b.tokens == Balance(rs, gs, k, b.last, cfg))
  }

  /** Some earlier grant has left less than a token for a request let through at `time`. */
  ghost predicate Short(rs: seq<real>, gs: seq<real>, time: real, cfg: Settings)
    requires |rs| == |gs|
  {
    exists k :: 0 <= k < |gs| && Balance(rs, gs, k, time, cfg) < 1.0
  }

  lemma BalanceLater(rs: seq<real>, gs: seq<real>, k: nat, from: real, to: real, cfg: Settings)
    requires k < |gs| == |rs|
    ensures Balance(rs, gs, k, to, cfg) == Balance(rs, gs, k, from, cfg) + Gain(cfg.rate, to - from)
  {
    hide Gain;
    GainBetween(cfg.rate, gs[k], from, to);
  }

  /** Tokens at a later time: short exactly if the bucket, refilled, is. */
  lemma ShortMeans(rs: seq<real>, gs: seq<real>, b: Bucket, time: real, cfg: Settings)
    requires IsLeast(rs, gs, b, cfg)
    ensures Short(rs, gs, time, cfg) <==> b.tokens + Gain(cfg.rate, time - b.last) < 1.0
  {
    hide Gain, Balance;
    forall k | 0 <= k < |gs|
      ensures Balance(rs, gs, k, time, cfg) == Balance(rs, gs, k, b.last, cfg) + Gain(cfg.rate, time - b.last)
    {
      BalanceLater(rs, gs, k, b.last, time, cfg);
    }
    var k :| 0 <= k < |gs| && b.tokens == Balance(rs, gs, k, b.last, cfg);
    assert Balance(rs, gs, k, time, cfg) == b.tokens + Gain(cfg.rate, time - b.last);
  }

  lemma BalanceSnoc(rs: seq<real>, gs: seq<real>, a: real, g: real, k: nat, time: real, cfg: Settings)
    requires k < |gs| == |rs|
    ensures Balance(rs + [a], gs + [g], k, time, cfg) == Balance(rs, gs, k, time, cfg) - 1.0
  {
    hide Gain;
  }

  lemma BalanceNow(rs: seq<real>, gs: seq<real>, cfg: Settings)
    requires |rs| == |gs| && gs != []
    ensures var n := |gs| - 1; Balance(rs, gs, n, gs[n], cfg) == LeftBy(rs[n], gs[n], cfg.burst)
  {
    hide Gain;
    GainBetween(cfg.rate, gs[|gs| - 1], gs[|gs| - 1], gs[|gs| - 1]);
  }

  /** A request let through at once: the new least is the old one, refilled up to the burst, less one. */
  lemma AtOnceKeeps(rs: seq<real>, gs: seq<real>, b: Bucket, now: real, cfg: Settings)
    requires IsLeast(rs, gs, b, cfg) && b.last <= now
    ensures IsLeast(rs + [now], gs + [now],
                    Bucket(Min(cfg.burst as real, b.tokens + Gain(cfg.rate, now - b.last)) - 1.0, now), cfg)
  {
    hide Gain, Balance;
    var rs', gs' := rs + [now], gs + [now];
    var b' := Bucket(Min(cfg.burst as real, b.tokens + Gain(cfg.rate, now - b.last)) - 1.0, now);
    BalanceNow(rs', gs', cfg);
    forall k | 0 <= k < |gs| ensures Balance(rs', gs', k, now, cfg) ==
                                     Balance(rs, gs, k, b.last, cfg) + Gain(cfg.rate, now - b.last) - 1.0 {
      BalanceLater(rs, gs, k, b.last, now, cfg);
      BalanceSnoc(rs, gs, now, now, k, now, cfg);
    }
    var k :| 0 <= k < |gs| && b.tokens == Balance(rs, gs, k, b.last, cfg);
    assert b'.tokens == Balance(rs', gs', k, now, cfg) || b'.tokens == Balance(rs', gs', |gs|, now, cfg);
  }

  /** A request that waited long enough: nothing is left. */
  lemma WaitingKeeps(rs: seq<real>, gs: seq<real>, b: Bucket, now: real, woke: real, cfg: Settings)
    requires IsLeast(rs, gs, b, cfg) && now < woke && b.tokens + Gain(cfg.rate, woke - b.last) >= 1.0
    ensures IsLeast(rs + [now], gs + [woke], Bucket(0.0, woke), cfg)
  {
    hide Gain, Balance;
    var rs', gs' := rs + [now], gs + [woke];
    BalanceNow(rs', gs', cfg);
    forall k | 0 <= k < |gs| ensures Balance(rs', gs', k, woke, cfg) ==
                                     Balance(rs, gs, k, b.last, cfg) + Gain(cfg.rate, woke - b.last) - 1.0 {
      BalanceLater(rs, gs, k, b.last, woke, cfg);
      BalanceSnoc(rs, gs, now, woke, k, woke, cfg);
    }
    assert Balance(rs', gs', |gs|, woke, cfg) == 0.0;
  }

  lemma FirstIsFull(now: real, cfg: Settings)
    ensures IsLeast([now], [now], Bucket(cfg.burst as real - 1.0, now), cfg)
  {
    hide Gain, Balance;
    BalanceNow([now], [now], cfg);
  }

  ghost predicate Accounted(calls: seq<Call>, host: string, cfg: Settings) {
    var state, rs, gs := Run(calls, cfg), Requested(calls, host), Grants(calls, host, cfg);
    && |rs| == |gs| && (host in state <==> gs != [])
    && (host in state ==> IsLeast(rs, gs, state[host], cfg) && InBounds(state[host], cfg))
  }

  /** The call by what the bucket holds when it is made. */
  lemma CallMeans(state: map<string, Bucket>, c: Call, cfg: Settings)
    requires Sane(cfg) && Timely(state, c, cfg)
    ensures c.host !in state ==>
              && GrantTime(state, c, cfg) == c.now
              && After(state, c, cfg)[c.host] == Bucket(cfg.burst as real - 1.0, c.now)
    ensures c.host in state ==>
              var b := state[c.host];
              var held := b.tokens + Gain(cfg.rate, c.now - b.last);
              && b.last <= c.now
              && (held >= 1.0 ==> GrantTime(state, c, cfg) == c.now
                                  && After(state, c, cfg)[c.host] == Bucket(Min(cfg.burst as real, held) - 1.0, c.now))
              && (held < 1.0 ==> GrantTime(state, c, cfg) == c.woke > c.now
                                 && After(state, c, cfg)[c.host] == Bucket(0.0, c.woke)
                                 && held + Gain(cfg.rate, c.woke - c.now) >= 1.0)
  {
    hide Gain;
    GainBetween(cfg.rate, c.now, c.now, c.now);
    if c.host in state {
      var b := state[c.host];
      var held := b.tokens + Gain(cfg.rate, c.now - b.last);
      if held < 1.0 {
        assert Available(state, c, cfg) == held;
        WaitPays(cfg.rate, held, c.now, c.woke);
        WaitIsPositive(cfg.rate, held);
      }
    }
  }

  lemma CallIsAccounted(calls: seq<Call>, c: Call, cfg: Settings)
    requires Sane(cfg) && Accounted(calls, c.host, cfg) && Timely(Run(calls, cfg), c, cfg)
    ensures Accounted(calls + [c], c.host, cfg)
  {
    hide Gain, IsLeast, Run, Grants, Requested, Available, MustWait, GrantTime, After, Timely, Min;
    var state, rs, gs := Run(calls, cfg), Requested(calls, c.host), Grants(calls, c.host, cfg);
    var g := GrantTime(state, c, cfg);
    OneMoreCall(calls, c, cfg);
    OneMoreRequest(calls, c);
    CallMeans(state, c, cfg);
    AfterHas(state, c, cfg);
    if c.host in state {
      Bounded(state[c.host], cfg);
    }
    GrantCosts(state, c, cfg);
    if c.host !in state {
      FirstIsFull(c.now, cfg);
      assert rs + [c.now] == [c.now] && gs + [c.now] == [c.now];
    } else {
      var b := state[c.host];
      if b.tokens + Gain(cfg.rate, c.now - b.last) >= 1.0 {
        AtOnceKeeps(rs, gs, b, c.now, cfg);
      } else {
        GainBetween(cfg.rate, b.last, c.now, c.woke);
        WaitingKeeps(rs, gs, b, c.now, c.woke, cfg);
      }
    }
  }

  lemma AfterHas(state: map<string, Bucket>, c: Call, cfg: Settings)
    ensures c.host in After(state, c, cfg) && After(state, c, cfg)[c.host].last == GrantTime(state, c, cfg)
  {
    hide Gain, Available;
  }

  lemma OneMoreRequest(calls: seq<Call>, c: Call)
    ensures Requested(calls + [c], c.host) == Requested(calls, c.host) + [c.now]
  {
    assert (calls + [c])[..|calls|] == calls;
  }

  lemma OtherIsAccounted(calls: seq<Call>, c: Call, host: string, cfg: Settings)
    requires Accounted(calls, host, cfg) && c.host != host
    ensures Accounted(calls + [c], host, cfg)
  {
    hide IsLeast, InBounds, Available, MustWait, GrantTime;
    assert (calls + [c])[..|calls|] == calls;
    assert Grants(calls, host, cfg) + [] == Grants(calls, host, cfg);
    assert Requested(calls, host) + [] == Requested(calls, host);
  }

  lemma {:induction false} EveryRunIsAccounted(calls: seq<Call>, host: string, cfg: Settings)
    requires Sane(cfg) && TimelyRun(calls, cfg)
    ensures Accounted(calls, host, cfg)
    decreases |calls|
  {
    hide Accounted, Timely;
    if calls == [] {
      NothingAccounted(host, cfg);
    } else {
      var n := |calls| - 1;
      assert forall i | 0 <= i < n :: calls[..n][..i] == calls[..i];
      EveryRunIsAccounted(calls[..n], host, cfg);
      assert calls == calls[..n] + [calls[n]];
      if calls[n].host == host {
        CallIsAccounted(calls[..n], calls[n], cfg);
      } else {
        OtherIsAccounted(calls[..n], calls[n], host, cfg);
      }
    }
  }

  lemma NothingAccounted(host: string, cfg: Settings)
    ensures Accounted([], host, cfg)
  {
  }

  /** The call comes after those before it, on a clock that does not run backwards. */
  ghost predicate Follows(calls: seq<Call>, c: Call, cfg: Settings) {
    var gs := Grants(calls, c.host, cfg);
    gs != [] ==> gs[|gs| - 1] <= c.now
  }

  lemma LastGrant(calls: seq<Call>, host: string, cfg: Settings)
    requires Accounted(calls, host, cfg)
    ensures var state, gs := Run(calls, cfg), Grants(calls, host, cfg);
            gs != [] ==> host in state && state[host].last == gs[|gs| - 1]
  {
    hide Gain, Balance, Run, Grants, Requested, InBounds;
  }

  /**
   * Exactly when a request has to wait: when letting it through at once would leave less than a token of what some
   * earlier grant left and time has brought since, all grants since deducted.
   */
  lemma WaitsExactly(calls: seq<Call>, c: Call, cfg: Settings)
    requires Sane(cfg) && TimelyRun(calls + [c], cfg)
    ensures var rs, gs, all := Requested(calls, c.host), Grants(calls, c.host, cfg), Grants(calls + [c], c.host, cfg);
            && |rs| == |gs| && |all| == |gs| + 1 && all[..|gs|] == gs && all[|gs|] >= c.now
            && (all[|gs|] > c.now <==> Short(rs, gs, c.now, cfg))
  {
    hide Gain, IsLeast, Run, Grants, Requested, Available, MustWait, GrantTime, After, Timely, Min, Short, InBounds;
    TimelyPrefix(calls, c, cfg);
    EveryRunIsAccounted(calls, c.host, cfg);
    var state, rs, gs := Run(calls, cfg), Requested(calls, c.host), Grants(calls, c.host, cfg);
    OneMoreCall(calls, c, cfg);
    AfterHas(state, c, cfg);
    CallMeans(state, c, cfg);
    if c.host in state {
      ShortMeans(rs, gs, state[c.host], c.now, cfg);
    } else {
      NothingShort(rs, gs, c.now, cfg);
    }
  }

  lemma NothingShort(rs: seq<real>, gs: seq<real>, time: real, cfg: Settings)
    requires |rs| == |gs| == 0
    ensures !Short(rs, gs, time, cfg)
  {
  }

  lemma TimelyPrefix(calls: seq<Call>, c: Call, cfg: Settings)
    requires cfg.rate > 0.0 && TimelyRun(calls + [c], cfg)
    ensures TimelyRun(calls, cfg) && Timely(Run(calls, cfg), c, cfg)
  {
    hide Timely, Run;
    var all := calls + [c];
    assert all[..|calls|] == calls && all[|calls|] == c;
    assert forall i | 0 <= i < |calls| :: all[..i] == calls[..i] && all[i] == calls[i];
  }

  lemma EnoughWait(rate: real, held: real, now: real, woke: real)
    requires rate > 0.0 && held < 1.0
    ensures woke >= now + (1.0 - held) / rate <==> held + Gain(rate, woke - now) >= 1.0
    ensures (1.0 - held) / rate > 0.0
    ensures held >= 0.0 ==> (1.0 - held) / rate <= 1.0 / rate
  {
    var w := (1.0 - held) / rate;
    assert w * rate == 1.0 - held;
    if woke >= now + w { GainGrows(rate, w, woke - now); } else { GainIsStrict(rate, woke - now, w); }
    PositiveTime(rate, w);
    if held >= 0.0 {
      assert 1.0 / rate * rate == 1.0;
      QuotientsGrow(rate, w, 1.0 / rate);
    }
  }

  lemma GainIsStrict(rate: real, x: real, y: real)
    requires rate > 0.0 && x < y
    ensures Gain(rate, x) < Gain(rate, y)
  {
  }

  lemma PositiveTime(rate: real, w: real)
    requires rate > 0.0 && w * rate > 0.0
    ensures w > 0.0
  {
  }

  lemma QuotientsGrow(rate: real, x: real, y: real)
    requires rate > 0.0 && x * rate <= y * rate
    ensures x <= y
  {
  }

  /**
   * A request that has to wait is asked to sleep until no earlier grant leaves less than a token, and not longer:
   * the sleeps that are long enough are exactly those; and no sleep asked for is longer than one token takes.
   */
  lemma SleepsExactly(calls: seq<Call>, host: string, now: real, woke: real, cfg: Settings)
    requires Sane(cfg) && TimelyRun(calls, cfg) && Follows(calls, Call(host, now, woke), cfg)
    requires |Requested(calls, host)| == |Grants(calls, host, cfg)|
    requires Short(Requested(calls, host), Grants(calls, host, cfg), now, cfg)
    ensures var rs, gs := Requested(calls, host), Grants(calls, host, cfg);
            Timely(Run(calls, cfg), Call(host, now, woke), cfg) <==> !Short(rs, gs, woke, cfg) && now < woke
    ensures 0.0 < WaitFor(Run(calls, cfg), Call(host, now, woke), cfg) <= 1.0 / cfg.rate
  {
    hide Gain, IsLeast, Run, Grants, Requested, Short, Balance;
    EveryRunIsAccounted(calls, host, cfg);
    LastGrant(calls, host, cfg);
    var state, rs, gs := Run(calls, cfg), Requested(calls, host), Grants(calls, host, cfg);
    if gs == [] { NothingShort(rs, gs, now, cfg); }
    var b := state[host];
    ShortMeans(rs, gs, b, now, cfg);
    ShortMeans(rs, gs, b, woke, cfg);
    var held := b.tokens + Gain(cfg.rate, now - b.last);
    GainGrows(cfg.rate, 0.0, now - b.last);
    GainBetween(cfg.rate, b.last, now, woke);
    assert Available(state, Call(host, now, woke), cfg) == held;
    EnoughWait(cfg.rate, held, now, woke);
    GainBackwards(cfg.rate, woke - now);
  }

  lemma GainBackwards(rate: real, time: real)
    requires rate > 0.0
    ensures Gain(rate, time) > 0.0 ==> time > 0.0
  {
  }

  /** Requests that keep a distance of one over the rate from the grant before never wait. */
  lemma SpacedNeverWait(calls: seq<Call>, c: Call, cfg: Settings)
    requires Sane(cfg) && TimelyRun(calls + [c], cfg)
    requires var gs := Grants(calls, c.host, cfg); gs != [] && gs[|gs| - 1] + 1.0 / cfg.rate <= c.now
    ensures Grants(calls + [c], c.host, cfg) == Grants(calls, c.host, cfg) + [c.now]
  {
    hide Gain, IsLeast, Run, Grants, Requested, Available, MustWait, GrantTime, After, Timely, Min;
    TimelyPrefix(calls, c, cfg);
    EveryRunIsAccounted(calls, c.host, cfg);
    LastGrant(calls, c.host, cfg);
    var state := Run(calls, cfg);
    OneMoreCall(calls, c, cfg);
    AfterHas(state, c, cfg);
    CallMeans(state, c, cfg);
    TimeBrings(cfg.rate, 1.0, c.now - state[c.host].last);
  }

  /** In `n` over the rate, time brings `n` tokens. */
  lemma TimeBrings(rate: real, n: real, time: real)
    requires rate > 0.0 && time >= n / rate
    ensures Gain(rate, time) >= n
  {
    assert n / rate * rate == n;
    GainGrows(rate, n / rate, time);
  }

  function Repeat(x: real, n: nat): seq<real> {
    if n == 0 then [] else Repeat(x, n - 1) + [x]
  }

  /** After an idle stretch of burst over rate a whole burst goes through at one instant again, and no more. */
  lemma {:induction false} BurstComesBack(calls: seq<Call>, host: string, now: real, n: nat, cfg: Settings)
    requires Sane(cfg) && TimelyRun(calls, cfg) && n <= cfg.burst
    requires var gs := Grants(calls, host, cfg); gs != [] ==> gs[|gs| - 1] + cfg.burst as real / cfg.rate <= now
    ensures TimelyRun(calls + Volley(host, now, n), cfg)
    ensures Grants(calls + Volley(host, now, n), host, cfg) == Grants(calls, host, cfg) + Repeat(now, n)
    ensures n > 0 ==> var state := Run(calls + Volley(host, now, n), cfg);
                      host in state && state[host] == Bucket((cfg.burst - n) as real, now)
    decreases n
  {
    hide TimelyRun, Gain, Run, Grants, Available, MustWait, GrantTime, After, Timely;
    if n == 0 {
      assert calls + [] == calls && Grants(calls, host, cfg) + [] == Grants(calls, host, cfg);
    } else {
      BurstComesBack(calls, host, now, n - 1, cfg);
      var before, c := calls + Volley(host, now, n - 1), Call(host, now, now);
      assert calls + Volley(host, now, n) == before + [c];
      EveryRunIsAccounted(calls, host, cfg);
      LastGrant(calls, host, cfg);
      NoneYet(calls, host, now, cfg);
      var state := Run(before, cfg);
      RefilledGrant(state, c, n - 1, cfg);
      TimelyOn(before, c, cfg);
      OneMoreCall(before, c, cfg);
      AfterHas(state, c, cfg);
      var gs, more := Grants(calls, host, cfg), Repeat(now, n - 1);
      assert gs + more + [now] == gs + (more + [now]);
    }
  }

  lemma NoneYet(calls: seq<Call>, host: string, now: real, cfg: Settings)
    ensures calls + Volley(host, now, 0) == calls
  {
  }

  lemma RefilledGrant(state: map<string, Bucket>, c: Call, k: nat, cfg: Settings)
    requires Sane(cfg) && k < cfg.burst && c.woke == c.now
    requires c.host in state ==> 0.0 <= state[c.host].tokens
    requires if k == 0 then c.host in state ==> state[c.host].last + cfg.burst as real / cfg.rate <= c.now
             else c.host in state && state[c.host] == Bucket((cfg.burst - k) as real, c.now)
    ensures Timely(state, c, cfg) && After(state, c, cfg)[c.host] == Bucket((cfg.burst - k - 1) as real, c.now)
    ensures GrantTime(state, c, cfg) == c.now
  {
    hide Gain;
    GainBetween(cfg.rate, c.now, c.now, c.now);
    if k == 0 && c.host in state {
      TimeBrings(cfg.rate, cfg.burst as real, c.now - state[c.host].last);
      NotNegative(cfg.burst as real, cfg.rate);
    }
    assert Available(state, c, cfg) == (cfg.burst - k) as real;
  }

  lemma NotNegative(n: real, rate: real)
    requires n >= 0.0 && rate > 0.0
    ensures n / rate >= 0.0
  {
  }
}
