/** The sliding window over distinct values: what it remembers, and the history it stands for. */
module DistinctCounter {
  import opened Prelude

  type Instant = int

  datatype Name = Name(text: string)

  type Times = map<Name, Instant>

  datatype Config = Config(limit: int, window: int) {
    predicate Valid() { limit > 0 && window > 0 }

    /** The earliest time still inside the closed window. */
    function Cutoff(now: Instant): Instant { now - window }
  }

  function MakeConfig(limit: int, window: int, minute: int): (c: Config)
    requires minute > 0
    ensures c.Valid()
  {
    Config(if limit <= 0 then 1 else limit, if window <= 0 then minute else window)
  }

  const SWEEP_THRESHOLD := 1024

  datatype Touch = Touch(key: Name, value: Name, now: Instant)

  // ------------------------------------------------------------ the mechanism

  function TimesOf(seen: map<Name, Times>, key: Name): Times {
    if key in seen then seen[key] else map[]
  }

  /** Keeps what was touched at or after the cutoff. */
  function Prune(values: Times, cutoff: Instant): Times {
    map v | v in values && values[v] >= cutoff :: values[v]
  }

  function Sweep(seen: map<Name, Times>, cutoff: Instant): map<Name, Times> {
    if |seen| < SWEEP_THRESHOLD then seen
    else map k | k in seen && Prune(seen[k], cutoff) != map[] :: Prune(seen[k], cutoff)
  }

  /** A value already there may repeat; a new one needs room. */
  predicate Room(values: Times, value: Name, limit: int) {
    value in values || |values| < limit
  }

  /** What a touch does, given the key's values inside the window. */
  function Settle(limit: int, seen: map<Name, Times>, t: Touch, values: Times, cutoff: Instant): (map<Name, Times>,
        bool) {
    if !Room(values, t.value, limit) then (seen[t.key := values], false)
    else
      var stored := seen[t.key := values[t.value := t.now]];
      (if t.value in values then stored else Sweep(stored, cutoff), true)
  }

  function Observation(cfg: Config, seen: map<Name, Times>, t: Touch): (map<Name, Times>, bool) {
    var cutoff := cfg.Cutoff(t.now);
    Settle(cfg.limit, seen, t, Prune(TimesOf(seen, t.key), cutoff), cutoff)
  }

  /** The earliest of the times, or `now` when there is none earlier. */
  ghost predicate IsOldest(values: Times, now: Instant, oldest: Instant) {
    && oldest <= now
    && (forall v :: v in values ==> oldest <= values[v])
    && (oldest == now || exists v :: v in values && values[v] == oldest)
  }

  // -------------------------------------------------------------- the history

  datatype History = Nothing | Then(earlier: History, touch: Touch, allowed: bool)

  predicate NotBefore(h: History, now: Instant) {
    h.Then? ==> h.touch.now <= now
  }

  predicate InOrder(h: History) {
    h.Then? ==> InOrder(h.earlier) && NotBefore(h.earlier, h.touch.now)
  }

  /** When the value was last allowed for the key. */
  function LastAllowed(h: History, key: Name, value: Name): Option<Instant> {
    if h.Nothing? then None
    else if h.allowed && h.touch.key == key && h.touch.value == value then Some(h.touch.now)
    else LastAllowed(h.earlier, key, value)
  }

  /** The values last allowed for the key at or after the cutoff, each with that time. */
  function Live(h: History, key: Name, cutoff: Instant): Times {
    if h.Nothing? then map[]
    else if !(h.allowed && h.touch.key == key) then Live(h.earlier, key, cutoff)
    else if h.touch.now >= cutoff then Live(h.earlier, key, cutoff)[h.touch.value := h.touch.now]
    else Live(h.earlier, key, cutoff) - {h.touch.value}
  }

  /** The rule: a value allowed within the closed window may repeat; a new one needs room among those allowed. */
  predicate Allows(cfg: Config, h: History, t: Touch) {
    Room(Live(h, t.key, cfg.Cutoff(t.now)), t.value, cfg.limit)
  }

  /** Every answer is the rule's, which knows nothing but the history. */
  predicate Follows(cfg: Config, h: History) {
    h.Then? ==> Follows(cfg, h.earlier) && h.allowed == Allows(cfg, h.earlier, h.touch)
  }

  /** What the counter remembers after the touches of the history. */
  function Memory(cfg: Config, h: History): map<Name, Times> {
    if h.Nothing? then map[] else Observation(cfg, Memory(cfg, h.earlier), h.touch).0
  }

  /** Every answer is the one the counter gave. */
  predicate Answered(cfg: Config, h: History) {
    h.Then? ==> Answered(cfg, h.earlier) && h.allowed == Observation(cfg, Memory(cfg, h.earlier), h.touch).1
  }

  /** `Live` is what its name says: the values whose last allowed touch is not before the cutoff. */
  lemma {:induction false} LiveIsExact(h: History, key: Name, cutoff: Instant, value: Name)
    ensures value in Live(h, key, cutoff) <==>
            LastAllowed(h, key, value).Some? && LastAllowed(h, key, value).value >= cutoff
    ensures value in Live(h, key, cutoff) ==> LastAllowed(h, key, value) == Some(Live(h, key, cutoff)[value])
  {
    if h.Then? {
      LiveIsExact(h.earlier, key, cutoff, value);
    }
  }

  lemma {:induction false} LiveLater(h: History, key: Name, cutoff: Instant, later: Instant)
    requires cutoff <= later
    ensures Live(h, key, later) == Prune(Live(h, key, cutoff), later)
  {
    if h.Then? {
      LiveLater(h.earlier, key, cutoff, later);
    }
  }

  // -------------------------------------------- the memory is the history's

  /** Up to what the window has left behind, the memory holds exactly the live values. */
  ghost predicate TracksKey(seen: map<Name, Times>, h: History, key: Name, cutoff: Instant) {
    Prune(TimesOf(seen, key), cutoff) == Live(h, key, cutoff)
  }

  ghost predicate Tracks(seen: map<Name, Times>, h: History, cutoff: Instant) {
    forall k :: TracksKey(seen, h, k, cutoff)
  }

  lemma PruneTwice(values: Times, cutoff: Instant, later: Instant)
    requires cutoff <= later
    ensures Prune(Prune(values, cutoff), later) == Prune(values, later)
  {
  }

  lemma PruneAdded(values: Times, cutoff: Instant, v: Name, now: Instant)
    requires cutoff <= now
    ensures Prune(Prune(values, cutoff)[v := now], cutoff) == Prune(values, cutoff)[v := now]
  {
  }

  lemma TracksLater(seen: map<Name, Times>, h: History, cutoff: Instant, later: Instant)
    requires Tracks(seen, h, cutoff) && cutoff <= later
    ensures Tracks(seen, h, later)
  {
    forall k
      ensures TracksKey(seen, h, k, later)
    {
      assert TracksKey(seen, h, k, cutoff);
      PruneTwice(TimesOf(seen, k), cutoff, later);
      LiveLater(h, k, cutoff, later);
    }
  }

  lemma SweepTracks(seen: map<Name, Times>, h: History, cutoff: Instant)
    requires Tracks(seen, h, cutoff)
    ensures Tracks(Sweep(seen, cutoff), h, cutoff)
  {
    if |seen| >= SWEEP_THRESHOLD {
      forall k
        ensures TracksKey(Sweep(seen, cutoff), h, k, cutoff)
      {
        assert TracksKey(seen, h, k, cutoff);
        PruneTwice(TimesOf(seen, k), cutoff, cutoff);
        assert TimesOf(Sweep(seen, cutoff), k) == Prune(TimesOf(seen, k), cutoff);
      }
    }
  }

  lemma StoredTracks(seen: map<Name, Times>, h: History, values: Times, cutoff: Instant)
    requires h.Then? && Tracks(seen, h.earlier, cutoff) && cutoff <= h.touch.now
    requires values == Prune(TimesOf(seen, h.touch.key), cutoff)
    ensures Tracks(seen[h.touch.key := if h.allowed then values[h.touch.value := h.touch.now] else values], h, cutoff)
  {
    var after := seen[h.touch.key := if h.allowed then values[h.touch.value := h.touch.now] else values];
    forall k
      ensures TracksKey(after, h, k, cutoff)
    {
      assert TracksKey(seen, h.earlier, k, cutoff);
      PruneTwice(TimesOf(seen, h.touch.key), cutoff, cutoff);
      PruneAdded(TimesOf(seen, h.touch.key), cutoff, h.touch.value, h.touch.now);
    }
  }

  lemma SettleTracks(limit: int, seen: map<Name, Times>, h: History, t: Touch, values: Times, cutoff: Instant)
    requires Tracks(seen, h, cutoff) && cutoff <= t.now
    requires values == Prune(TimesOf(seen, t.key), cutoff)
    ensures var (seen', allowed) := Settle(limit, seen, t, values, cutoff);
            allowed == Room(Live(h, t.key, cutoff), t.value, limit) && Tracks(seen', Then(h, t, allowed), cutoff)
  {
    assert TracksKey(seen, h, t.key, cutoff);
    StoredTracks(seen, Then(h, t, Room(values, t.value, limit)), values, cutoff);
    if Room(values, t.value, limit) && t.value !in values {
      SweepTracks(seen[t.key := values[t.value := t.now]], Then(h, t, true), cutoff);
    }
  }

  /**
    Over any run of touches at non-decreasing times, the counter answers exactly by the rule, so
    neither pruning nor sweeping shows; and from the last touch on, its memory holds what is live.
   */
  lemma {:induction false} CounterFollowsTheRule(cfg: Config, h: History, now: Instant)
    requires cfg.Valid() && InOrder(h) && NotBefore(h, now)
    ensures Answered(cfg, h) <==> Follows(cfg, h)
    ensures Answered(cfg, h) ==> Tracks(Memory(cfg, h), h, cfg.Cutoff(now))
  {
    if h.Then? {
      var t, cutoff := h.touch, cfg.Cutoff(h.touch.now);
      CounterFollowsTheRule(cfg, h.earlier, t.now);
      if Answered(cfg, h.earlier) {
        var seen := Memory(cfg, h.earlier);
        SettleTracks(cfg.limit, seen, h.earlier, t, Prune(TimesOf(seen, t.key), cutoff), cutoff);
        if Answered(cfg, h) {
          TracksLater(Memory(cfg, h), h, cutoff, cfg.Cutoff(now));
        }
      }
    } else {
      NothingTracked(cfg.Cutoff(now));
    }
  }

  lemma NothingTracked(cutoff: Instant)
    ensures Tracks(map[], Nothing, cutoff)
  {
    forall k
      ensures TracksKey(map[], Nothing, k, cutoff)
    {
    }
  }

  // ---------------------------------------------------------------- the bound

  lemma PruneShrinks(values: Times, cutoff: Instant)
    ensures |Prune(values, cutoff)| <= |values|
  {
    SubsetCardinality(Prune(values, cutoff).Keys, values.Keys);
    assert |values| == |values.Keys| && |Prune(values, cutoff)| == |Prune(values, cutoff).Keys|;
  }

  lemma OneMore(values: Times, v: Name, now: Instant, limit: int)
    requires |values| <= limit && Room(values, v, limit)
    ensures |values[v := now]| <= limit
  {
    var grown := values[v := now];
    assert grown.Keys == values.Keys + {v};
    assert v in values ==> grown.Keys == values.Keys;
    assert |values| == |values.Keys| && |grown| == |grown.Keys|;
  }

  /** From each touch on, no more than `limit` values are live. */
  lemma {:induction false} LiveIsLimited(cfg: Config, h: History, key: Name, now: Instant)
    requires cfg.Valid() && InOrder(h) && Follows(cfg, h) && NotBefore(h, now)
    ensures |Live(h, key, cfg.Cutoff(now))| <= cfg.limit
  {
    if h.Then? {
      var cutoff := cfg.Cutoff(h.touch.now);
      LiveIsLimited(cfg, h.earlier, key, h.touch.now);
      if h.allowed && h.touch.key == key {
        OneMore(Live(h.earlier, key, cutoff), h.touch.value, h.touch.now, cfg.limit);
      }
      LiveLater(h, key, cutoff, cfg.Cutoff(now));
      PruneShrinks(Live(h, key, cutoff), cfg.Cutoff(now));
    }
  }

  /** The values allowed for a key between two times, both included. */
  function AllowedBetween(h: History, key: Name, from: Instant, to: Instant): set<Name> {
    if h.Nothing? then {}
    else if h.allowed && h.touch.key == key && from <= h.touch.now <= to
    then AllowedBetween(h.earlier, key, from, to) + {h.touch.value}
    else AllowedBetween(h.earlier, key, from, to)
  }

  lemma {:induction false} NothingSince(h: History, key: Name, from: Instant, to: Instant, now: Instant)
    requires InOrder(h) && NotBefore(h, now) && now < from
    ensures AllowedBetween(h, key, from, to) == {}
  {
    if h.Then? {
      NothingSince(h.earlier, key, from, to, now);
    }
  }

  lemma {:induction false} AllowedBetweenIsLive(h: History, key: Name, from: Instant, to: Instant, cutoff: Instant)
    requires InOrder(h) && cutoff <= from
    ensures AllowedBetween(h, key, from, to) <= Live(h, key, cutoff).Keys
  {
    if h.Then? {
      AllowedBetweenIsLive(h.earlier, key, from, to, cutoff);
      if h.touch.now < from {
        NothingSince(h, key, from, to, h.touch.now);
      }
    }
  }

  /** No closed window of the configured length ever holds more than `limit` distinct allowed values for a key. */
  lemma {:induction false} WindowsAreLimited(cfg: Config, h: History, key: Name, from: Instant, to: Instant)
    requires cfg.Valid() && InOrder(h) && Answered(cfg, h) && to - from <= cfg.window
    ensures |AllowedBetween(h, key, from, to)| <= cfg.limit
  {
    if h.Then? {
      if h.touch.now > to {
        WindowsAreLimited(cfg, h.earlier, key, from, to);
      } else {
        var live := Live(h, key, cfg.Cutoff(h.touch.now));
        CounterFollowsTheRule(cfg, h, h.touch.now);
        LiveIsLimited(cfg, h, key, h.touch.now);
        AllowedBetweenIsLive(h, key, from, to, cfg.Cutoff(h.touch.now));
        SubsetCardinality(AllowedBetween(h, key, from, to), live.Keys);
        assert |live.Keys| == |live|;
      }
    }
  }

  // ----------------------------------------------------------- the exact rule

  lemma {:induction false} LiveIsAllowedBetween(h: History, key: Name, cutoff: Instant, now: Instant)
    requires InOrder(h) && NotBefore(h, now)
    ensures Live(h, key, cutoff).Keys == AllowedBetween(h, key, cutoff, now)
  {
    if h.Then? {
      LiveIsAllowedBetween(h.earlier, key, cutoff, now);
      if h.allowed && h.touch.key == key && h.touch.now < cutoff {
        NothingSince(h.earlier, key, cutoff, now, h.touch.now);
      }
    }
  }

  /**
    The rule in plain terms, over any run of the counter: a touch is let through exactly when its value,
    or fewer than `limit` values at all, were let through for the key in the last `window` ticks.
   */
  lemma AllowedIff(limit: int, window: int, minute: int, h: History, t: Touch, allowed: bool)
    requires limit > 0 && window > 0 && minute > 0
    requires InOrder(Then(h, t, allowed)) && Answered(MakeConfig(limit, window, minute), Then(h, t, allowed))
    ensures var recent := AllowedBetween(h, t.key, t.now - window, t.now);
            allowed <==> t.value in recent || |recent| < limit
  {
    var cfg := MakeConfig(limit, window, minute);
    CounterFollowsTheRule(cfg, Then(h, t, allowed), t.now);
    var live := Live(h, t.key, cfg.Cutoff(t.now));
    LiveIsAllowedBetween(h, t.key, t.now - window, t.now);
    assert |live| == |live.Keys|;
  }

  /** Without a sensible limit one value is let through, without a sensible window a minute counts. */
  lemma DefaultsAreSensible(limit: int, window: int, minute: int)
    requires minute > 0
    ensures MakeConfig(limit, window, minute)
              == MakeConfig(if limit <= 0 then 1 else limit, if window <= 0 then minute else window, minute)
  {
  }

  // ----------------------------------------------------------------- the wait

  predicate AllPast(values: Times, now: Instant) {
    forall v :: v in values ==> values[v] <= now
  }

  lemma {:induction false} LiveIsPast(h: History, key: Name, cutoff: Instant, now: Instant)
    requires InOrder(h) && NotBefore(h, now)
    ensures AllPast(Live(h, key, cutoff), now)
  {
    if h.Then? {
      LiveIsPast(h.earlier, key, cutoff, now);
    }
  }

  /** Moving the cutoff on makes room exactly when it passes the earliest time. */
  lemma RoomPastTheOldest(values: Times, now: Instant, oldest: Instant, later: Instant)
    requires values != map[] && IsOldest(values, now, oldest) && AllPast(values, now)
    ensures |Prune(values, later)| < |values| <==> later > oldest
    ensures later <= oldest ==> Prune(values, later) == values
  {
    assert |values| == |values.Keys| && |Prune(values, later)| == |Prune(values, later).Keys|;
    if later > oldest {
      var first := OldestIsThere(values, now, oldest);
      assert first in values.Keys && first !in Prune(values, later).Keys;
      SubsetCardinality(Prune(values, later).Keys, values.Keys);
    } else {
      assert Prune(values, later) == values;
    }
  }

  lemma OldestIsThere(values: Times, now: Instant, oldest: Instant) returns (first: Name)
    requires values != map[] && IsOldest(values, now, oldest) && AllPast(values, now)
    ensures first in values && values[first] == oldest
  {
    if oldest == now {
      assert values.Keys != {};
      first :| first in values;
    } else {
      first :| first in values && values[first] == oldest;
    }
  }

  /** A full window, later: it has room again exactly when its oldest value has lapsed. */
  lemma RoomAgain(live: Times, value: Name, limit: int, now: Instant, oldest: Instant, later: Instant)
    requires limit > 0 && |live| <= limit && !Room(live, value, limit)
    requires IsOldest(live, now, oldest) && AllPast(live, now)
    ensures Room(Prune(live, later), value, limit) <==> later > oldest
  {
    RoomPastTheOldest(live, now, oldest, later);
    PruneShrinks(live, later);
  }

  /** Since the first history nothing has been allowed on the key; refusals and other keys are free. */
  predicate QuietSince(start: History, h: History, key: Name) {
    h == start || (h.Then? && QuietSince(start, h.earlier, key) && !(h.allowed && h.touch.key == key))
  }

  lemma {:induction false} QuietKeepsLive(start: History, h: History, key: Name, cutoff: Instant)
    requires QuietSince(start, h, key)
    ensures Live(h, key, cutoff) == Live(start, key, cutoff)
  {
    if h != start {
      QuietKeepsLive(start, h.earlier, key, cutoff);
    }
  }

  /**
    The wait returned with a refusal, `oldest + window - now`, runs out one tick before it helps:
    the window is closed, so whatever is refused or goes on under other keys in between, the same
    touch is refused again at exactly that time, and allowed from the next tick on.
   */
  lemma WaitIsOneTickShort(cfg: Config, h: History, t: Touch, oldest: Instant, later: History, again: Touch)
    requires cfg.Valid() && InOrder(h) && Follows(cfg, h) && NotBefore(h, t.now) && !Allows(cfg, h, t)
    requires IsOldest(Live(h, t.key, cfg.Cutoff(t.now)), t.now, oldest)
    requires QuietSince(Then(h, t, false), later, t.key)
    requires again.key == t.key && again.value == t.value && again.now >= t.now
    ensures Allows(cfg, later, again) <==> again.now - t.now > oldest + cfg.window - t.now
  {
    var cutoff, cutoff' := cfg.Cutoff(t.now), cfg.Cutoff(again.now);
    QuietKeepsLive(Then(h, t, false), later, t.key, cutoff');
    LiveIsLimited(cfg, h, t.key, t.now);
    LiveIsPast(h, t.key, cutoff, t.now);
    LiveLater(h, t.key, cutoff, cutoff');
    RoomAgain(Live(h, t.key, cutoff), t.value, cfg.limit, t.now, oldest, cutoff');
  }

  /** One value a window of ten ticks: a second value at 3 is told to wait 7, is refused at 10 and allowed at 11. */
  lemma ReturnedWaitIsRefused()
    ensures var cfg, key, b := Config(1, 10), Name("ip"), Name("b");
            var h := Then(Nothing, Touch(key, Name("a"), 0), true);
            var refused := Touch(key, b, 3);
            && cfg.Valid() && InOrder(h) && Follows(cfg, h)
            && !Allows(cfg, h, refused) && IsOldest(Live(h, key, cfg.Cutoff(3)), 3, 0)
            && !Allows(cfg, Then(h, refused, false), Touch(key, b, 3 + (0 + cfg.window - 3)))
            && Allows(cfg, Then(h, refused, false), Touch(key, b, 11))
  {
    var cfg, key, b := Config(1, 10), Name("ip"), Name("b");
    var h := Then(Nothing, Touch(key, Name("a"), 0), true);
    assert Live(h, key, cfg.Cutoff(3)) == map[Name("a") := 0];
    assert Name("a").text[0] != b.text[0];
    WaitIsOneTickShort(cfg, h, Touch(key, b, 3), 0, Then(h, Touch(key, b, 3), false), Touch(key, b, 10));
    WaitIsOneTickShort(cfg, h, Touch(key, b, 3), 0, Then(h, Touch(key, b, 3), false), Touch(key, b, 11));
  }

  /** From 1024 keys on, a sweep keeps the times inside the window, and the keys that have one. */
  lemma SweepIsExact(seen: map<Name, Times>, cutoff: Instant, k: Name)
    ensures |seen| < 1024 ==> Sweep(seen, cutoff) == seen
    ensures |seen| >= 1024 ==>
              (k in Sweep(seen, cutoff) <==> k in seen && exists v :: v in seen[k] && seen[k][v] >= cutoff)
    ensures |seen| >= 1024 && k in Sweep(seen, cutoff) ==>
              forall v :: (v in Sweep(seen, cutoff)[k] <==> v in seen[k] && seen[k][v] >= cutoff)
                          && (v in Sweep(seen, cutoff)[k] ==> Sweep(seen, cutoff)[k][v] == seen[k][v])
  {
    if k in seen {
      var kept := Prune(seen[k], cutoff);
      if v :| v in seen[k] && seen[k][v] >= cutoff {
        assert v in kept;
      }
      if kept != map[] {
        assert kept.Keys != {};
        var v :| v in kept;
        assert v in seen[k] && seen[k][v] >= cutoff;
      }
    }
  }

  // --------------------------------------------------------------- the counter

  /** The memory while a sweep runs: the keys still to visit as they were, the others pruned. */
  ghost function Midway(seen: map<Name, Times>, rest: set<Name>, cutoff: Instant): map<Name, Times> {
    map k | k in seen && (k in rest || Prune(seen[k], cutoff) != map[]) ::
      if k in rest then seen[k] else Prune(seen[k], cutoff)
  }

  lemma MidwayStep(seen: map<Name, Times>, rest: set<Name>, k: Name, cutoff: Instant)
    requires k in rest && rest <= seen.Keys
    ensures Midway(seen, rest - {k}, cutoff) ==
            if Prune(seen[k], cutoff) == map[] then Midway(seen, rest, cutoff) - {k}
            else Midway(seen, rest, cutoff)[k := Prune(seen[k], cutoff)]
    ensures k in Midway(seen, rest, cutoff) && Midway(seen, rest, cutoff)[k] == seen[k]
  {
  }

  class Counter {
    const cfg: Config
    var seen: map<Name, Times>

    constructor (limit: int, window: int, minute: int)
      requires minute > 0
      ensures cfg == MakeConfig(limit, window, minute) && seen == map[]
    {
      cfg := MakeConfig(limit, window, minute);
      seen := map[];
    }

    /** Deletes what lies before the cutoff, noting the earliest of the rest. */
    method PruneValues(values: Times, cutoff: Instant, now: Instant) returns (kept: Times, oldest: Instant)
      ensures kept == Prune(values, cutoff) && IsOldest(kept, now, oldest)
    {
      kept, oldest := values, now;
      var rest := values.Keys;
      while rest != {}
        invariant rest <= values.Keys
        invariant kept == map v | v in values && (v in rest || values[v] >= cutoff) :: values[v]
        invariant oldest <= now
        invariant oldest == now || exists v :: v in values && v !in rest && values[v] >= cutoff && values[v] == oldest
        invariant forall v :: v in values && v !in rest && values[v] >= cutoff ==> oldest <= values[v]
        decreases |rest|
      {
        var v := Any(rest);
        if values[v] < cutoff {
          kept := kept - {v};
        } else if values[v] < oldest {
          oldest := values[v];
        }
        rest := rest - {v};
      }
    }

    /** Prunes every key and drops those left with nothing. */
    method SweepAll(cutoff: Instant)
      modifies this
      ensures seen == Sweep(old(seen), cutoff)
    {
      if |seen| < SWEEP_THRESHOLD {
        return;
      }
      ghost var was := seen;
      var rest := seen.Keys;
      while rest != {}
        invariant rest <= was.Keys
        invariant seen == Midway(was, rest, cutoff)
        decreases |rest|
      {
        var k := Any(rest);
        var kept, _ := PruneValues(seen[k], cutoff, cutoff);
        MidwayStep(was, rest, k, cutoff);
        if |kept| == 0 {
          seen := seen - {k};
        } else {
          seen := seen[k := kept];
        }
        rest := rest - {k};
      }
    }

    /** Records that the key touched the value, or refuses with the time until the earliest value lapses. */
    method Observe(key: Name, value: Name, now: Instant) returns (allowed: bool, retryAfter: int)
      modifies this
      ensures (seen, allowed) == Observation(cfg, old(seen), Touch(key, value, now))
      ensures allowed ==> retryAfter == 0
      ensures !allowed ==> IsOldest(Prune(TimesOf(old(seen), key), cfg.Cutoff(now)), now, retryAfter - cfg.window + now)
    {
      var cutoff := cfg.Cutoff(now);
      var values, oldest := PruneValues(TimesOf(seen, key), cutoff, now);
      if value in values {
        seen := seen[key := values[value := now]];
        return true, 0;
      }
      if |values| >= cfg.limit {
        seen := seen[key := values];
        return false, oldest + cfg.window - now;
      }
      seen := seen[key := values[value := now]];
      SweepAll(cutoff);
      return true, 0;
    }
  }
}
