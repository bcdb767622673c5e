/**
  The token-bucket limiter. Instants and durations are whole ticks; tokens are reals. The
  refill rate is kept per tick, where the seconds-per-tick factor of the code cancels.
 */
module TokenBucket {
  import opened Prelude

  type Instant = int

  datatype Bucket = Bucket(tokens: real, lastSeen: Instant)

  type Buckets = map<string, Bucket>

  /** Tokens per tick, the most a bucket holds, and the period the rate was given over. */
  datatype Config = Config(perTick: real, burst: real, per: int) {
    predicate Valid() { perTick > 0.0 && burst >= 1.0 && per > 0 && Inflow(perTick, per) == burst }
  }

  /** The tokens that flow in over a number of ticks. */
  function Inflow(perTick: real, ticks: int): real { ticks as real * perTick }

  /** `rate` events in each `per` ticks, with defaults for senseless arguments. */
  function MakeConfig(rate: int, per: int, minute: int): (c: Config)
    requires minute > 0
    ensures c.Valid()
  {
    var r, p := if rate <= 0 then 1 else rate, if per <= 0 then minute else per;
    Config(r as real / p as real, r as real, p)
  }

  datatype Answer = Answer(allowed: bool, retryAfter: int)

  const SWEEP_THRESHOLD := 1024

  function Min(a: real, b: real): real { if a <= b then a else b }

  /** What a bucket holds at `now`; a key without a bucket counts as full. */
  function Level(cfg: Config, buckets: Buckets, key: string, now: Instant): real
    requires cfg.Valid()
  {
    if key in buckets
    then Min(cfg.burst, buckets[key].tokens + Inflow(cfg.perTick, now - buckets[key].lastSeen))
    else cfg.burst
  }

  function Sweep(cfg: Config, buckets: Buckets, now: Instant): Buckets {
    if |buckets| < SWEEP_THRESHOLD then buckets
    else map k | k in buckets && now - buckets[k].lastSeen <= 2 * cfg.per :: buckets[k]
  }

  /** One decision without any sweeping. The wait is cut to whole ticks. */
  function Decide(cfg: Config, buckets: Buckets, key: string, now: Instant): (Buckets, Answer)
    requires cfg.Valid()
  {
    var level := Level(cfg, buckets, key, now);
    if level < 1.0 then (buckets[key := Bucket(level, now)], Answer(false, ((1.0 - level) / cfg.perTick).Floor))
    else (buckets[key := Bucket(level - 1.0, now)], Answer(true, 0))
  }

  // --------------------------------------------------------------------- runs

  datatype Call = Call(key: string, now: Instant)

  /** The limiter as it is, sweeping before each decision. */
  function SweptRun(cfg: Config, buckets: Buckets, calls: seq<Call>): (r: (Buckets, seq<Answer>))
    requires cfg.Valid()
    ensures |r.1| == |calls|
  {
    if calls == [] then (buckets, [])
    else
      var (before, answers) := SweptRun(cfg, buckets, calls[..|calls| - 1]);
      var call := calls[|calls| - 1];
      var (after, answer) := Decide(cfg, Sweep(cfg, before, call.now), call.key, call.now);
      (after, answers + [answer])
  }

  /** The limiter that never forgets a bucket. */
  function PlainRun(cfg: Config, buckets: Buckets, calls: seq<Call>): (r: (Buckets, seq<Answer>))
    requires cfg.Valid()
    ensures |r.1| == |calls|
  {
    if calls == [] then (buckets, [])
    else
      var (before, answers) := PlainRun(cfg, buckets, calls[..|calls| - 1]);
      var call := calls[|calls| - 1];
      var (after, answer) := Decide(cfg, before, call.key, call.now);
      (after, answers + [answer])
  }

  function Clock(start: Instant, calls: seq<Call>): Instant {
    if calls == [] then start else calls[|calls| - 1].now
  }

  /** Clock readings never go back. */
  predicate InOrder(start: Instant, calls: seq<Call>) {
    calls == [] ||
    (InOrder(start, calls[..|calls| - 1]) && Clock(start, calls[..|calls| - 1]) <= calls[|calls| - 1].now)
  }

  /** Levels are never negative nor above the burst, and no bucket was seen in the future. */
  ghost predicate Sane(cfg: Config, buckets: Buckets, now: Instant) {
    forall k :: k in buckets ==> 0.0 <= buckets[k].tokens <= cfg.burst && buckets[k].lastSeen <= now
  }

  lemma InflowNonNegative(perTick: real, ticks: int)
    requires perTick >= 0.0 && ticks >= 0
    ensures Inflow(perTick, ticks) >= 0.0
  {
  }

  lemma InflowAdds(perTick: real, a: int, b: int)
    ensures Inflow(perTick, a + b) == Inflow(perTick, a) + Inflow(perTick, b)
  {
  }

  lemma InflowGrows(perTick: real, from: int, to: int)
    requires perTick >= 0.0 && from <= to
    ensures Inflow(perTick, from) <= Inflow(perTick, to)
  {
    InflowAdds(perTick, from, to - from);
    InflowNonNegative(perTick, to - from);
  }

  lemma LevelInRange(cfg: Config, buckets: Buckets, key: string, now: Instant)
    requires cfg.Valid() && Sane(cfg, buckets, now)
    ensures 0.0 <= Level(cfg, buckets, key, now) <= cfg.burst
  {
    if key in buckets {
      InflowNonNegative(cfg.perTick, now - buckets[key].lastSeen);
    }
  }

  lemma DecideIsSane(cfg: Config, buckets: Buckets, key: string, earlier: Instant, now: Instant)
    requires cfg.Valid() && Sane(cfg, buckets, earlier) && earlier <= now
    ensures Sane(cfg, Decide(cfg, buckets, key, now).0, now)
  {
    LevelInRange(cfg, buckets, key, now);
  }

  // --------------------------------------------------- sweeping is invisible

  /** Left alone, this bucket is full by now. */
  predicate FullAgain(cfg: Config, b: Bucket, now: Instant) {
    b.tokens + Inflow(cfg.perTick, now - b.lastSeen) >= cfg.burst
  }

  /** The swept limiter has forgotten only buckets that are full again. */
  ghost predicate ForgotOnlyFull(cfg: Config, swept: Buckets, plain: Buckets, now: Instant) {
    && (forall k :: k in swept ==> k in plain && swept[k] == plain[k])
    && (forall k :: k in plain && k !in swept ==> FullAgain(cfg, plain[k], now))
  }

  lemma IdleIsFull(cfg: Config, b: Bucket, now: Instant)
    requires cfg.Valid() && b.tokens >= 0.0 && now - b.lastSeen > 2 * cfg.per
    ensures FullAgain(cfg, b, now)
  {
    InflowGrows(cfg.perTick, cfg.per, now - b.lastSeen);
  }

  lemma FullStaysFull(cfg: Config, b: Bucket, earlier: Instant, now: Instant)
    requires cfg.Valid() && FullAgain(cfg, b, earlier) && earlier <= now
    ensures FullAgain(cfg, b, now)
  {
    InflowGrows(cfg.perTick, earlier - b.lastSeen, now - b.lastSeen);
  }

  lemma SweepForgetsOnlyFull(cfg: Config, swept: Buckets, plain: Buckets, earlier: Instant, now: Instant)
    requires cfg.Valid() && Sane(cfg, plain, earlier) && earlier <= now
    requires ForgotOnlyFull(cfg, swept, plain, earlier)
    ensures ForgotOnlyFull(cfg, Sweep(cfg, swept, now), plain, now)
  {
    forall k | k in plain && k !in Sweep(cfg, swept, now)
      ensures FullAgain(cfg, plain[k], now)
    {
      if k in swept {
        IdleIsFull(cfg, plain[k], now);
      } else {
        FullStaysFull(cfg, plain[k], earlier, now);
      }
    }
  }

  lemma ForgettingHidesNothing(cfg: Config, swept: Buckets, plain: Buckets, key: string, now: Instant)
    requires cfg.Valid() && ForgotOnlyFull(cfg, swept, plain, now)
    ensures Level(cfg, swept, key, now) == Level(cfg, plain, key, now)
    ensures ForgotOnlyFull(cfg, Decide(cfg, swept, key, now).0, Decide(cfg, plain, key, now).0, now)
    ensures Decide(cfg, swept, key, now).1 == Decide(cfg, plain, key, now).1
  {
  }

  /** Over any run of calls at non-decreasing times, the sweeping limiter answers exactly like one that never sweeps. */
  lemma {:induction false} SweepIsInvisible(cfg: Config, start: Instant, calls: seq<Call>)
    requires cfg.Valid() && InOrder(start, calls)
    ensures SweptRun(cfg, map[], calls).1 == PlainRun(cfg, map[], calls).1
    ensures ForgotOnlyFull(cfg, SweptRun(cfg, map[], calls).0, PlainRun(cfg, map[], calls).0, Clock(start, calls))
    ensures Sane(cfg, PlainRun(cfg, map[], calls).0, Clock(start, calls))
  {
    if calls != [] {
      var init, call := calls[..|calls| - 1], calls[|calls| - 1];
      SweepIsInvisible(cfg, start, init);
      var swept, plain := SweptRun(cfg, map[], init).0, PlainRun(cfg, map[], init).0;
      SweepForgetsOnlyFull(cfg, swept, plain, Clock(start, init), call.now);
      DecideIsSane(cfg, plain, call.key, Clock(start, init), call.now);
      ForgettingHidesNothing(cfg, Sweep(cfg, swept, call.now), plain, call.key, call.now);
    }
  }

  // ---------------------------------------------------------------- the bound

  /** How many of the calls on a key were allowed. */
  function Allowed(calls: seq<Call>, answers: seq<Answer>, key: string): nat
    requires |calls| == |answers|
  {
    if calls == [] then 0
    else
      var n := |calls| - 1;
      Allowed(calls[..n], answers[..n], key) + if calls[n].key == key && answers[n].allowed then 1 else 0
  }

  /** Every allowed call is paid for by the tokens there were and those that flowed in. */
  ghost predicate PaidFor(cfg: Config, allowed: nat, from: real, to: real, ticks: int) {
    allowed as real + to <= from + Inflow(cfg.perTick, ticks)
  }

  lemma PaidForStep(cfg: Config, allowed: nat, from: real, mid: real, grown: real, to: real, a: int, b: int, one: nat)
    requires PaidFor(cfg, allowed, from, mid, a)
    requires grown <= mid + Inflow(cfg.perTick, b) && to == grown - one as real
    ensures PaidFor(cfg, allowed + one, from, to, a + b)
  {
    InflowAdds(cfg.perTick, a, b);
  }

  lemma {:induction false} TokensPayForCalls(cfg: Config, buckets: Buckets, start: Instant, calls: seq<Call>,
        key: string)
    requires cfg.Valid() && Sane(cfg, buckets, start) && InOrder(start, calls)
    ensures var (after, answers) := PlainRun(cfg, buckets, calls);
            var end := Clock(start, calls);
            && Sane(cfg, after, end) && start <= end
            && PaidFor(cfg, Allowed(calls, answers, key), Level(cfg, buckets, key, start), Level(cfg, after, key, end),
                 end - start)
  {
    if calls != [] {
      var init, call := calls[..|calls| - 1], calls[|calls| - 1];
      TokensPayForCalls(cfg, buckets, start, init, key);
      var (before, answers) := PlainRun(cfg, buckets, init);
      var (after, all) := PlainRun(cfg, buckets, calls);
      var mid := Clock(start, init);
      DecideIsSane(cfg, before, call.key, mid, call.now);
      LevelGrowsSlowly(cfg, before, key, mid, call.now);
      DecideTakesOne(cfg, before, call.key, key, call.now);
      assert all[..|calls| - 1] == answers;
      PaidForStep(cfg, Allowed(init, answers, key), Level(cfg, buckets, key, start), Level(cfg, before, key, mid),
                  Level(cfg, before, key, call.now), Level(cfg, after, key, call.now), mid - start, call.now - mid,
                  if call.key == key && all[|calls| - 1].allowed then 1 else 0);
    } else {
      assert Inflow(cfg.perTick, 0) == 0.0;
    }
  }

  lemma LevelGrowsSlowly(cfg: Config, buckets: Buckets, key: string, from: Instant, to: Instant)
    requires cfg.Valid() && from <= to
    ensures Level(cfg, buckets, key, to) <= Level(cfg, buckets, key, from) + Inflow(cfg.perTick, to - from)
  {
    InflowNonNegative(cfg.perTick, to - from);
    if key in buckets {
      InflowAdds(cfg.perTick, from - buckets[key].lastSeen, to - from);
    }
  }

  lemma DecideTakesOne(cfg: Config, buckets: Buckets, called: string, key: string, now: Instant)
    requires cfg.Valid() && Sane(cfg, buckets, now)
    ensures var (after, answer) := Decide(cfg, buckets, called, now);
            Level(cfg, after, key, now) ==
            Level(cfg, buckets, key, now) - if called == key && answer.allowed then 1.0 else 0.0
  {
    LevelInRange(cfg, buckets, key, now);
  }

  lemma {:induction false} PlainRunAppend(cfg: Config, buckets: Buckets, a: seq<Call>, b: seq<Call>)
    requires cfg.Valid()
    ensures PlainRun(cfg, buckets, a + b).0 == PlainRun(cfg, PlainRun(cfg, buckets, a).0, b).0
    ensures PlainRun(cfg, buckets, a + b).1
              == PlainRun(cfg, buckets, a).1 + PlainRun(cfg, PlainRun(cfg, buckets, a).0, b).1
  {
    if b == [] {
      assert a + b == a;
    } else {
      assert (a + b)[..|a + b| - 1] == a + b[..|b| - 1];
      PlainRunAppend(cfg, buckets, a, b[..|b| - 1]);
    }
  }

  lemma {:induction false} InOrderSplits(start: Instant, a: seq<Call>, b: seq<Call>)
    requires InOrder(start, a + b)
    ensures InOrder(start, a) && InOrder(Clock(start, a), b)
    ensures Clock(start, a + b) == Clock(Clock(start, a), b)
  {
    if b == [] {
      assert a + b == a;
    } else {
      assert (a + b)[..|a + b| - 1] == a + b[..|b| - 1];
      InOrderSplits(start, a, b[..|b| - 1]);
    }
  }

  lemma {:induction false} InOrderFrom(start: Instant, later: Instant, calls: seq<Call>)
    requires InOrder(start, calls) && calls != [] && start <= later <= calls[0].now
    ensures InOrder(later, calls)
  {
    if |calls| > 1 {
      InOrderFrom(start, later, calls[..|calls| - 1]);
    }
  }

  /**
    In every run and every interval of time, the calls allowed for one key number at most
    the burst plus what flows in during the interval. The calls before the interval and
    those on other keys are arbitrary; the limiter is the sweeping one.
   */
  lemma AllowedIsBounded(cfg: Config, start: Instant, before: seq<Call>, within: seq<Call>, key: string,
        from: Instant, to: Instant)
    requires cfg.Valid() && InOrder(start, before + within)
    requires forall c :: c in within ==> from <= c.now <= to
    requires Clock(start, before) <= from <= to
    ensures var answers := SweptRun(cfg, map[], before + within).1;
            Allowed(within, answers[|before|..], key) as real <= cfg.burst + Inflow(cfg.perTick, to - from)
  {
    SweepIsInvisible(cfg, start, before + within);
    InOrderSplits(start, before, within);
    SweepIsInvisible(cfg, start, before);
    PlainRunAppend(cfg, map[], before, within);
    var buckets := PlainRun(cfg, map[], before).0;
    assert PlainRun(cfg, map[], before + within).1[|before|..] == PlainRun(cfg, buckets, within).1;
    assert Sane(cfg, buckets, from);
    BoundedWithin(cfg, buckets, Clock(start, before), within, key, from, to);
  }

  lemma BoundedWithin(cfg: Config, buckets: Buckets, start: Instant, within: seq<Call>, key: string, from: Instant,
        to: Instant)
    requires cfg.Valid() && Sane(cfg, buckets, from) && InOrder(start, within) && start <= from <= to
    requires forall c :: c in within ==> from <= c.now <= to
    ensures Allowed(within, PlainRun(cfg, buckets, within).1, key) as real <= cfg.burst + Inflow(cfg.perTick, to - from)
  {
    InflowNonNegative(cfg.perTick, to - from);
    if within != [] {
      assert within[0] in within && within[|within| - 1] in within;
      InOrderFrom(start, from, within);
      TokensPayForCalls(cfg, buckets, from, within, key);
      LevelInRange(cfg, buckets, key, from);
      LevelInRange(cfg, PlainRun(cfg, buckets, within).0, key, Clock(from, within));
      InflowGrows(cfg.perTick, Clock(from, within) - from, to - from);
    }
  }

  // ----------------------------------------------------------- the exact rule

  /** What is left at `t` of the burst and the inflow since call i, after the calls allowed from there on. */
  function Left(cfg: Config, calls: seq<Call>, answers: seq<Answer>, key: string, i: nat, t: Instant): real
    requires i < |calls| == |answers|
  {
    cfg.burst + Inflow(cfg.perTick, t - calls[i].now) - Allowed(calls[i..], answers[i..], key) as real
  }

  /** A level no interval that ends now has exceeded, and that one of them, or the burst, attains. */
  ghost predicate TightLevel(cfg: Config, calls: seq<Call>, answers: seq<Answer>, key: string, t: Instant, level: real)
    requires |calls| == |answers|
  {
    && level <= cfg.burst
    && (forall i :: 0 <= i < |calls| ==> level <= Left(cfg, calls, answers, key, i, t))
    && (level == cfg.burst || exists i :: 0 <= i < |calls| && level == Left(cfg, calls, answers, key, i, t))
  }

  lemma AllowedSuffix(calls: seq<Call>, answers: seq<Answer>, key: string, i: nat)
    requires i < |calls| == |answers|
    ensures var n := |calls| - 1;
            Allowed(calls[i..], answers[i..], key) ==
            Allowed(calls[..n][i..], answers[..n][i..], key)
            + if calls[n].key == key && answers[n].allowed then 1 else 0
  {
    var n := |calls| - 1;
    assert calls[i..][..n - i] == calls[..n][i..] && answers[i..][..n - i] == answers[..n][i..];
  }

  /** One more call moves every bound by the tick and the token it costs. */
  lemma LeftStep(cfg: Config, calls: seq<Call>, answers: seq<Answer>, key: string, i: nat, t: Instant, one: nat)
    requires i < |calls| - 1 && |calls| == |answers|
    requires one == if calls[|calls| - 1].key == key && answers[|calls| - 1].allowed then 1 else 0
    ensures var n := |calls| - 1;
            Left(cfg, calls, answers, key, i, t) ==
            Left(cfg, calls[..n], answers[..n], key, i, calls[n].now)
            + Inflow(cfg.perTick, t - calls[n].now) - one as real
  {
    var n := |calls| - 1;
    AllowedSuffix(calls, answers, key, i);
    InflowAdds(cfg.perTick, calls[n].now - calls[i].now, t - calls[n].now);
  }

  lemma LeftOfLast(cfg: Config, calls: seq<Call>, answers: seq<Answer>, key: string, t: Instant, one: nat)
    requires calls != [] && |calls| == |answers|
    requires one == if calls[|calls| - 1].key == key && answers[|calls| - 1].allowed then 1 else 0
    ensures Left(cfg, calls, answers, key, |calls| - 1, t)
              == cfg.burst + Inflow(cfg.perTick, t - calls[|calls| - 1].now) - one as real
  {
    AllowedSuffix(calls, answers, key, |calls| - 1);
  }

  /** How the level moves past one call: it gains what flows in, up to the burst, and pays for the call. */
  lemma TightStep(cfg: Config, calls: seq<Call>, answers: seq<Answer>, key: string, t: Instant, mid: real, level: real,
        one: nat)
    requires cfg.Valid() && calls != [] && |calls| == |answers| && calls[|calls| - 1].now <= t
    requires one == if calls[|calls| - 1].key == key && answers[|calls| - 1].allowed then 1 else 0
    requires var n := |calls| - 1; TightLevel(cfg, calls[..n], answers[..n], key, calls[n].now, mid)
    requires level == Min(cfg.burst, mid - one as real + Inflow(cfg.perTick, t - calls[|calls| - 1].now))
    ensures TightLevel(cfg, calls, answers, key, t, level)
  {
    var n := |calls| - 1;
    LeftOfLast(cfg, calls, answers, key, t, one);
    forall i | 0 <= i < |calls|
      ensures level <= Left(cfg, calls, answers, key, i, t)
    {
      if i < n {
        LeftStep(cfg, calls, answers, key, i, t, one);
        assert mid <= Left(cfg, calls[..n], answers[..n], key, i, calls[n].now);
      }
    }
    if level != cfg.burst {
      if mid == cfg.burst {
        assert level == Left(cfg, calls, answers, key, n, t);
      } else {
        var i :| 0 <= i < n && mid == Left(cfg, calls[..n], answers[..n], key, i, calls[n].now);
        LeftStep(cfg, calls, answers, key, i, t, one);
        assert level == Left(cfg, calls, answers, key, i, t);
      }
    }
  }

  lemma LevelStep(cfg: Config, buckets: Buckets, called: string, key: string, now: Instant, t: Instant)
    requires cfg.Valid() && Sane(cfg, buckets, now) && now <= t
    ensures var (after, answer) := Decide(cfg, buckets, called, now);
            var one := if called == key && answer.allowed then 1.0 else 0.0;
            Level(cfg, after, key, t)
              == Min(cfg.burst, Level(cfg, buckets, key, now) - one + Inflow(cfg.perTick, t - now))
  {
    LevelInRange(cfg, buckets, key, now);
    InflowNonNegative(cfg.perTick, t - now);
    if called != key && key in buckets {
      InflowAdds(cfg.perTick, now - buckets[key].lastSeen, t - now);
    }
  }

  lemma {:induction false} LevelIsTight(cfg: Config, start: Instant, calls: seq<Call>, key: string, t: Instant)
    requires cfg.Valid() && InOrder(start, calls) && Clock(start, calls) <= t
    ensures var (buckets, answers) := PlainRun(cfg, map[], calls);
            TightLevel(cfg, calls, answers, key, t, Level(cfg, buckets, key, t))
  {
    if calls != [] {
      var n := |calls| - 1;
      var init, call := calls[..n], calls[n];
      LevelIsTight(cfg, start, init, key, call.now);
      SweepIsInvisible(cfg, start, init);
      var (before, answers) := PlainRun(cfg, map[], init);
      var (after, all) := PlainRun(cfg, map[], calls);
      assert all[..n] == answers;
      LevelStep(cfg, before, call.key, key, call.now, t);
      TightStep(cfg, calls, all, key, t, Level(cfg, before, key, call.now), Level(cfg, after, key, t),
                if call.key == key && all[n].allowed then 1 else 0);
    }
  }

  lemma InWholeNumbers(rate: int, per: int, ticks: int, allowed: int)
    requires rate > 0 && per > 0
    ensures rate as real + Inflow(rate as real / per as real, ticks) - allowed as real >= 1.0
            <==> (allowed + 1 - rate) * per <= ticks * rate
  {
    var perTick, p, room := rate as real / per as real, per as real, (allowed + 1 - rate) as real;
    assert perTick * p == rate as real;
    assert Inflow(perTick, ticks) * p == ticks as real * (perTick * p) == (ticks * rate) as real;
    assert room * p == ((allowed + 1 - rate) * per) as real;
    if Inflow(perTick, ticks) >= room {
      assert (Inflow(perTick, ticks) - room) * p >= 0.0;
    } else {
      assert (room - Inflow(perTick, ticks)) * p > 0.0;
    }
  }

  /** `rate` calls in each `per` ticks fit, counting from call i, when one more is let through at `t`. */
  predicate Fits(rate: int, per: int, calls: seq<Call>, answers: seq<Answer>, key: string, i: nat, t: Instant)
    requires i < |calls| == |answers|
  {
    (Allowed(calls[i..], answers[i..], key) + 1 - rate) * per <= (t - calls[i].now) * rate
  }

  lemma RoomIff(rate: int, per: int, minute: int, calls: seq<Call>, answers: seq<Answer>, key: string, t: Instant,
        level: real)
    requires rate > 0 && per > 0 && minute > 0 && |calls| == |answers|
    requires TightLevel(MakeConfig(rate, per, minute), calls, answers, key, t, level)
    ensures level >= 1.0 <==> forall i :: 0 <= i < |calls| ==> Fits(rate, per, calls, answers, key, i, t)
  {
    var cfg := MakeConfig(rate, per, minute);
    forall i | 0 <= i < |calls|
      ensures Fits(rate, per, calls, answers, key, i, t) <==> Left(cfg, calls, answers, key, i, t) >= 1.0
    {
      InWholeNumbers(rate, per, t - calls[i].now, Allowed(calls[i..], answers[i..], key));
    }
  }

  /**
    The rule itself, in whole numbers and without buckets or sweeps. After any run of calls in order, the
    next is let through exactly when no interval that ends with it gets more than `rate` calls on its
    key plus `rate` for each `per` ticks it lasts.
   */
  lemma AllowedIff(rate: int, per: int, minute: int, start: Instant, calls: seq<Call>, call: Call)
    requires rate > 0 && per > 0 && minute > 0 && InOrder(start, calls + [call])
    ensures var cfg := MakeConfig(rate, per, minute);
            var answers := SweptRun(cfg, map[], calls).1;
            && SweptRun(cfg, map[], calls + [call]).1[..|calls|] == answers
            && (SweptRun(cfg, map[], calls + [call]).1[|calls|].allowed
                <==> forall i :: 0 <= i < |calls| ==> Fits(rate, per, calls, answers, call.key, i, call.now))
  {
    var cfg := MakeConfig(rate, per, minute);
    assert (calls + [call])[..|calls|] == calls;
    InOrderSplits(start, calls, [call]);
    SweepIsInvisible(cfg, start, calls);
    SweepIsInvisible(cfg, start, calls + [call]);
    var (buckets, answers) := PlainRun(cfg, map[], calls);
    LastAnswer(cfg, calls, call, buckets);
    assert [call][..0] == [];
    LevelIsTight(cfg, start, calls, call.key, call.now);
    RoomIff(rate, per, minute, calls, answers, call.key, call.now, Level(cfg, buckets, call.key, call.now));
  }

  /** Without a sensible rate there is one call, without a sensible period a minute. */
  lemma DefaultsAreSensible(rate: int, per: int, minute: int)
    requires minute > 0
    ensures MakeConfig(rate, per, minute)
              == MakeConfig(if rate <= 0 then 1 else rate, if per <= 0 then minute else per, minute)
    ensures rate > 0 && per > 0 ==>
              MakeConfig(rate, per, minute).burst == rate as real && MakeConfig(rate, per, minute).per == per
  {
  }

  // -------------------------------------------------------------- the wait

  lemma {:induction false} OthersLeaveTheBucket(cfg: Config, buckets: Buckets, others: seq<Call>, key: string)
    requires cfg.Valid() && key in buckets && forall c :: c in others ==> c.key != key
    ensures key in PlainRun(cfg, buckets, others).0 && PlainRun(cfg, buckets, others).0[key] == buckets[key]
  {
    if others != [] {
      assert others[|others| - 1] in others;
      OthersLeaveTheBucket(cfg, buckets, others[..|others| - 1], key);
    }
  }

  /** The ticks until a whole token is there. */
  function Needed(cfg: Config, buckets: Buckets, key: string, now: Instant): real
    requires cfg.Valid()
  {
    (1.0 - Level(cfg, buckets, key, now)) / cfg.perTick
  }

  /** A later call on the key, decided without sweeping, is allowed exactly when what was missing has flown in. */
  lemma PlainWaitIff(cfg: Config, buckets: Buckets, key: string, now: Instant, others: seq<Call>, wait: nat)
    requires cfg.Valid() && !Decide(cfg, buckets, key, now).1.allowed
    requires forall c :: c in others ==> c.key != key
    ensures Decide(cfg, PlainRun(cfg, Decide(cfg, buckets, key, now).0, others).0, key, now + wait).1.allowed
            <==> wait as real >= Needed(cfg, buckets, key, now)
  {
    var level := Level(cfg, buckets, key, now);
    var after := Decide(cfg, buckets, key, now).0;
    OthersLeaveTheBucket(cfg, after, others, key);
    LaterLevel(cfg, PlainRun(cfg, after, others).0, key, level, now, wait);
    WaitCovers(wait, 1.0 - level, cfg.perTick);
  }

  lemma LastAnswer(cfg: Config, calls: seq<Call>, call: Call, buckets: Buckets)
    requires cfg.Valid() && PlainRun(cfg, map[], calls).0 == buckets
    ensures PlainRun(cfg, map[], calls + [call]).0 == Decide(cfg, buckets, call.key, call.now).0
    ensures PlainRun(cfg, map[], calls + [call]).1
              == PlainRun(cfg, map[], calls).1 + [Decide(cfg, buckets, call.key, call.now).1]
  {
    assert (calls + [call])[..|calls|] == calls;
  }

  lemma LastIsAllowed(cfg: Config, calls: seq<Call>, call: Call, buckets: Buckets, run: seq<Call>)
    requires cfg.Valid() && PlainRun(cfg, map[], calls).0 == buckets && run == calls + [call]
    ensures PlainRun(cfg, map[], run).1[|run| - 1].allowed <==> Decide(cfg, buckets, call.key, call.now).1.allowed
  {
    LastAnswer(cfg, calls, call, buckets);
  }

  /** The run that a refusal and what follows it are part of. */
  function Waiting(before: seq<Call>, call: Call, others: seq<Call>, wait: nat): seq<Call> {
    before + [call] + others + [Call(call.key, call.now + wait)]
  }

  lemma InOrderPrefix(start: Instant, before: seq<Call>, call: Call, others: seq<Call>, wait: nat)
    requires InOrder(start, Waiting(before, call, others, wait))
    ensures InOrder(start, before) && InOrder(start, before + [call]) && Clock(start, before) <= call.now
  {
    assert Waiting(before, call, others, wait) == (before + [call]) + (others + [Call(call.key, call.now + wait)]);
    InOrderSplits(start, before + [call], others + [Call(call.key, call.now + wait)]);
    assert (before + [call])[..|before|] == before;
  }

  lemma RunOfOthers(cfg: Config, before: seq<Call>, call: Call, others: seq<Call>, buckets: Buckets)
    requires cfg.Valid() && PlainRun(cfg, map[], before).0 == buckets
    ensures PlainRun(cfg, map[], before + [call] + others).0
              == PlainRun(cfg, Decide(cfg, buckets, call.key, call.now).0, others).0
  {
    LastAnswer(cfg, before, call, buckets);
    PlainRunAppend(cfg, map[], before + [call], others);
  }

  lemma PlainWaiting(cfg: Config, before: seq<Call>, call: Call, others: seq<Call>, wait: nat, buckets: Buckets)
    requires cfg.Valid() && PlainRun(cfg, map[], before).0 == buckets
    requires forall c :: c in others ==> c.key != call.key
    requires !Decide(cfg, buckets, call.key, call.now).1.allowed
    ensures var run := Waiting(before, call, others, wait);
            var allowed := PlainRun(cfg, map[], run).1[|run| - 1].allowed;
            allowed <==> wait as real >= Needed(cfg, buckets, call.key, call.now)
  {
    var end := PlainRun(cfg, Decide(cfg, buckets, call.key, call.now).0, others).0;
    RunOfOthers(cfg, before, call, others, buckets);
    var again, run := Call(call.key, call.now + wait), Waiting(before, call, others, wait);
    LastIsAllowed(cfg, before + [call] + others, again, end, run);
    PlainWaitIff(cfg, buckets, call.key, call.now, others, wait);
  }

  /** What the refusal of the sweeping limiter, and the decision after it, come to without sweeping. */
  lemma WaitingUnswept(cfg: Config, start: Instant, before: seq<Call>, call: Call, others: seq<Call>, wait: nat)
    requires cfg.Valid() && InOrder(start, Waiting(before, call, others, wait))
    ensures SweptRun(cfg, map[], Waiting(before, call, others, wait)).1
              == PlainRun(cfg, map[], Waiting(before, call, others, wait)).1
    ensures SweptRun(cfg, map[], before + [call]).1[|before|]
              == Decide(cfg, PlainRun(cfg, map[], before).0, call.key, call.now).1
    ensures Needed(cfg, SweptRun(cfg, map[], before).0, call.key, call.now)
              == Needed(cfg, PlainRun(cfg, map[], before).0, call.key, call.now)
  {
    InOrderPrefix(start, before, call, others, wait);
    SweepIsInvisible(cfg, start, before);
    SweepIsInvisible(cfg, start, before + [call]);
    SweepIsInvisible(cfg, start, Waiting(before, call, others, wait));
    var swept, plain := SweptRun(cfg, map[], before).0, PlainRun(cfg, map[], before).0;
    LastAnswer(cfg, before, call, plain);
    StillSameLevel(cfg, swept, plain, call.key, Clock(start, before), call.now);
  }

  /**
    The sweeping limiter from its empty start, after any calls: when one is refused and none comes
    on its key meanwhile, a call `wait` ticks later is allowed exactly when `wait` covers the missing
    fraction of a token in full. So the returned wait, which is cut to whole ticks, is enough exactly
    when nothing was cut, and one tick more is always enough.
   */
  lemma WaitIsEnoughIff(cfg: Config, start: Instant, before: seq<Call>, call: Call, others: seq<Call>, wait: nat)
    requires cfg.Valid() && InOrder(start, Waiting(before, call, others, wait))
    requires forall c :: c in others ==> c.key != call.key
    requires !SweptRun(cfg, map[], before + [call]).1[|before|].allowed
    ensures var run := Waiting(before, call, others, wait);
            var later := SweptRun(cfg, map[], run).1[|run| - 1].allowed;
            var refusal := SweptRun(cfg, map[], before + [call]).1[|before|];
            var needed := Needed(cfg, SweptRun(cfg, map[], before).0, call.key, call.now);
            && (later <==> wait as real >= needed)
            && (wait == refusal.retryAfter ==> (later <==> needed == refusal.retryAfter as real))
            && (wait == refusal.retryAfter + 1 ==> later)
  {
    var plain := PlainRun(cfg, map[], before).0;
    WaitingUnswept(cfg, start, before, call, others, wait);
    PlainWaiting(cfg, before, call, others, wait, plain);
    RefusalIsFloored(cfg, plain, call.key, call.now);
  }

  lemma RefusalIsFloored(cfg: Config, buckets: Buckets, key: string, now: Instant)
    requires cfg.Valid() && !Decide(cfg, buckets, key, now).1.allowed
    ensures Decide(cfg, buckets, key, now).1.retryAfter == Needed(cfg, buckets, key, now).Floor
  {
  }

  lemma StillSameLevel(cfg: Config, swept: Buckets, plain: Buckets, key: string, earlier: Instant, now: Instant)
    requires cfg.Valid() && ForgotOnlyFull(cfg, swept, plain, earlier) && earlier <= now
    ensures Level(cfg, swept, key, now) == Level(cfg, plain, key, now)
  {
    if key in plain && key !in swept {
      FullStaysFull(cfg, plain[key], earlier, now);
    }
  }

  lemma LaterLevel(cfg: Config, buckets: Buckets, key: string, level: real, now: Instant, wait: nat)
    requires cfg.Valid() && key in buckets && buckets[key] == Bucket(level, now) && level < 1.0
    ensures Decide(cfg, buckets, key, now + wait).1.allowed <==> Inflow(cfg.perTick, wait) >= 1.0 - level
  {
  }

  lemma WaitCovers(wait: nat, missing: real, perTick: real)
    requires perTick > 0.0
    ensures Inflow(perTick, wait) >= missing <==> wait as real >= missing / perTick
  {
    var needed := missing / perTick;
    assert needed * perTick == missing;
    if wait as real >= needed {
      assert (wait as real - needed) * perTick >= 0.0;
    } else {
      assert (needed - wait as real) * perTick > 0.0;
    }
  }

  const SEVEN_IN_TEN := Config(0.7, 7.0, 10)

  lemma SevenInTen()
    ensures SEVEN_IN_TEN == MakeConfig(7, 10, 60) && SEVEN_IN_TEN.Valid()
  {
  }

  function Holding(tokens: real): Buckets {
    map["a" := Bucket(tokens, 0)]
  }

  function AtOnce(n: nat): (calls: seq<Call>)
    ensures |calls| == n
  {
    if n == 0 then [] else AtOnce(n - 1) + [Call("a", 0)]
  }

  lemma OneTokenLess(cfg: Config, tokens: real)
    requires cfg.Valid() && 1.0 <= tokens <= cfg.burst
    ensures Level(cfg, Sweep(cfg, Holding(tokens), 0), "a", 0) == tokens
    ensures Decide(cfg, Sweep(cfg, Holding(tokens), 0), "a", 0).0 == Holding(tokens - 1.0)
  {
    assert |Holding(tokens)| == 1 && Inflow(cfg.perTick, 0) == 0.0;
  }

  lemma FirstToken(cfg: Config)
    requires cfg.Valid()
    ensures Decide(cfg, Sweep(cfg, map[], 0), "a", 0).0 == Holding(cfg.burst - 1.0)
  {
  }

  lemma {:induction false} Drained(cfg: Config, n: nat, tokens: real)
    requires cfg.Valid() && n >= 1 && tokens == cfg.burst - n as real >= 0.0
    ensures SweptRun(cfg, map[], AtOnce(n)).0 == Holding(tokens)
  {
    var before := n - 1;
    assert AtOnce(n)[..before] == AtOnce(before);
    if before == 0 {
      FirstToken(cfg);
    } else {
      Drained(cfg, before, tokens + 1.0);
      OneTokenLess(cfg, tokens + 1.0);
    }
  }

  lemma {:induction false} AtOnceInOrder(n: nat)
    ensures InOrder(0, AtOnce(n)) && Clock(0, AtOnce(n)) == 0
  {
    if n > 0 {
      assert AtOnce(n)[..n - 1] == AtOnce(n - 1);
      AtOnceInOrder(n - 1);
    }
  }

  lemma EighthIsRefused()
    ensures SEVEN_IN_TEN.Valid() && SweptRun(SEVEN_IN_TEN, map[], AtOnce(7)).0 == Holding(0.0)
    ensures SweptRun(SEVEN_IN_TEN, map[], AtOnce(7) + [Call("a", 0)]).1[7] == Answer(false, 1)
    ensures Needed(SEVEN_IN_TEN, Holding(0.0), "a", 0) > 1.0
  {
    SevenInTen();
    Drained(SEVEN_IN_TEN, 7, 0.0);
    assert |Holding(0.0)| == 1 && Inflow(SEVEN_IN_TEN.perTick, 0) == 0.0;
    assert (AtOnce(7) + [Call("a", 0)])[..7] == AtOnce(7);
  }

  /**
    Seven in ten ticks, and eight calls at once: the eighth is told to wait one tick, and one tick
    brings only seven tenths of a token.
   */
  lemma ReturnedWaitCanBeTooShort()
    ensures SEVEN_IN_TEN.Valid() && SEVEN_IN_TEN == MakeConfig(7, 10, 60)
    ensures SweptRun(SEVEN_IN_TEN, map[], AtOnce(7) + [Call("a", 0)]).1[7] == Answer(false, 1)
    ensures var run := AtOnce(7) + [Call("a", 0)] + [] + [Call("a", 1)];
            InOrder(0, run) && !SweptRun(SEVEN_IN_TEN, map[], run).1[8].allowed
  {
    var run := Waiting(AtOnce(7), Call("a", 0), [], 1);
    SevenInTen();
    EighthIsRefused();
    AtOnceInOrder(8);
    assert AtOnce(8) == AtOnce(7) + [Call("a", 0)] && run[..8] == AtOnce(8) && AtOnce(8) + [] == AtOnce(8);
    WaitIsEnoughIff(SEVEN_IN_TEN, 0, AtOnce(7), Call("a", 0), [], 1);
  }

  // -------------------------------------------------------------- the limiter

  class Limiter {
    const cfg: Config
    var buckets: Buckets

    constructor (rate: int, per: int, minute: int)
      requires minute > 0
      ensures cfg == MakeConfig(rate, per, minute) && buckets == map[]
    {
      cfg := MakeConfig(rate, per, minute);
      buckets := map[];
    }

    /** Drops idle buckets one by one, in any order. */
    method SweepIdle(now: Instant)
      modifies this
      ensures buckets == Sweep(cfg, old(buckets), now)
      ensures |old(buckets)| < 1024 ==> buckets == old(buckets)
      ensures |old(buckets)| >= 1024 ==> forall k :: k in buckets <==>
                k in old(buckets) && now - old(buckets)[k].lastSeen <= 2 * cfg.per
      ensures forall k :: k in buckets ==> buckets[k] == old(buckets)[k]
    {
      if |buckets| < SWEEP_THRESHOLD {
        return;
      }
      ghost var was := buckets;
      var rest := buckets.Keys;
      while rest != {}
        invariant rest <= was.Keys
        invariant buckets == map k | k in was && (k in rest || now - was[k].lastSeen <= 2 * cfg.per) :: was[k]
        decreases |rest|
      {
        var k := Any(rest);
        if now - buckets[k].lastSeen > 2 * cfg.per {
          buckets := buckets - {k};
        }
        rest := rest - {k};
      }
    }

    /** Consumes one token for the key, or says how long to wait. */
    method Allow(key: string, now: Instant) returns (answer: Answer)
      requires cfg.Valid()
      modifies this
      ensures (buckets, answer) == Decide(cfg, Sweep(cfg, old(buckets), now), key, now)
    {
      SweepIdle(now);
      var b;
      if key !in buckets {
        b := Bucket(cfg.burst, now);
      } else {
        b := buckets[key];
        b := Bucket(Min(cfg.burst, b.tokens + Inflow(cfg.perTick, now - b.lastSeen)), now);
      }
      if b.tokens < 1.0 {
        buckets := buckets[key := b];
        return Answer(false, ((1.0 - b.tokens) / cfg.perTick).Floor);
      }
      buckets := buckets[key := b.(tokens := b.tokens - 1.0)];
      return Answer(true, 0);
    }
  }
}
