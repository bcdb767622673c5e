/**
  The auto-unlock fan-out: runs claim a batch of (subscriber, chapter) pairs and then debit
  and record them one by one, while manual unlocks, edits and other runs go on in between.
 */
module AutoUnlock {
  import opened Prelude
  import opened Coins
  import opened Store
  import opened LedgerTotals
  import opened Conservation
  import Service
  import WalletDb

  type Pair = (UserId, ChapterId)

  datatype AttemptOutcome = Unlocked | Insufficient | OverCap | Skipped

  datatype Attempt = Attempt(outcome: AttemptOutcome, attempts: nat, at: Instant)

  datatype Candidate = Candidate(user: UserId, chapter: ChapterId, price: int, maxCoins: int) {
    function Pair(): Pair { (user, chapter) }
  }

  datatype Subscription = Subscription(active: bool, createdAt: Instant, maxCoins: int)

  /** What the candidate query reads besides the store. */
  datatype Roster = Roster(subscriptions: map<(UserId, int), Subscription>, publishedAt: map<ChapterId, Instant>)

  // ---------------------------------------------------------------- one pair

  /** The debit of one candidate and the outcome the job derives from it. */
  function ApplyOne(s: State, c: Candidate, clock: Instant, fee: int): (State, AttemptOutcome) {
    if c.maxCoins > 0 && c.price > c.maxCoins then (s, OverCap)
    else
      match Service.AutoUnlockChapter(s.catalog, c.user, c.chapter, clock, fee)
      case Err(_) => (s, Skipped)
      case Ok(cmd) =>
        var o := Apply(s, cmd);
        match o.result
        case Ok(_) => (o.state, Unlocked)
        case Err(AlreadyUnlocked) => (o.state, Skipped)
        case Err(NotFound) => (o.state, Skipped)
        case Err(ChapterNotForSale) => (o.state, Skipped)
        case Err(_) => (o.state, Insufficient)
  }

  /** The upsert that bumps the retry counter. */
  function Record(attempts: map<Pair, Attempt>, pair: Pair, outcome: AttemptOutcome, now: Instant): map<Pair, Attempt> {
    attempts[pair := Attempt(outcome, TriesOf(attempts, pair) + 1, now)]
  }

  function TriesOf(attempts: map<Pair, Attempt>, pair: Pair): nat {
    if pair in attempts then attempts[pair].attempts else 0
  }

  /** An outcome that is never retried. */
  predicate Closed(attempts: map<Pair, Attempt>, pair: Pair) {
    pair in attempts && attempts[pair].outcome != Insufficient
  }

  /** The rows of the candidate query. */
  predicate IsCandidate(s: State, roster: Roster, attempts: map<Pair, Attempt>, c: Candidate,
                        publishedAfter: Instant, retryBefore: Instant, maxAttempts: nat) {
    && c.chapter in s.catalog.chapters && c.chapter in roster.publishedAt
    && var row := s.catalog.chapters[c.chapter];
       var sub := (c.user, row.novel);
       && row.status == Published && row.price > 0 && c.price == row.price && row.novel in s.catalog.novels
       && sub in roster.subscriptions && roster.subscriptions[sub].active
       && c.maxCoins == roster.subscriptions[sub].maxCoins
       && roster.publishedAt[c.chapter] >= roster.subscriptions[sub].createdAt
       && roster.publishedAt[c.chapter] >= publishedAfter
       && !Owns(s.unlocks, c.user, c.chapter)
       && !(c.Pair() in attempts &&
            (Closed(attempts, c.Pair()) || attempts[c.Pair()].attempts >= maxAttempts
              || attempts[c.Pair()].at > retryBefore))
  }

  // ------------------------------------------------------------- the machine

  type RunId = int

  /**
    An open run: the time it stamps, the candidates whose outcome it has still to record, and the
    outcome of the first once it has been debited.
   */
  datatype Claim = Claim(now: Instant, rest: seq<Candidate>, debited: Option<AttemptOutcome>)

  datatype Fan = Fan(store: State, roster: Roster, attempts: map<Pair, Attempt>, claims: map<RunId, Claim>)

  datatype Step =
    | Open(run: RunId, now: Instant, publishedAfter: Instant, retryBefore: Instant, batch: seq<Candidate>)
    | Debit(run: RunId, clock: Instant)
    | Note(run: RunId)
    | Close(run: RunId)
    | Elsewhere(event: Event)
    | EditRoster(roster: Roster)

  function Pairs(batch: seq<Candidate>): (r: seq<Pair>)
    ensures |r| == |batch|
  {
    seq(|batch|, i requires 0 <= i < |batch| => batch[i].Pair())
  }

  /** At most `width` runs are open at once; one is what a single scheduler does. */
  ghost predicate Enabled(f: Fan, step: Step, maxAttempts: nat, width: nat) {
    match step
    case Open(run, now, publishedAfter, retryBefore, batch) =>
      && run !in f.claims && |f.claims| < width
      && Distinct(Pairs(batch))
      && forall c :: c in batch ==>
           IsCandidate(f.store, f.roster, f.attempts, c, publishedAfter, retryBefore, maxAttempts)
    case Debit(run, _) => run in f.claims && f.claims[run].rest != [] && f.claims[run].debited.None?
    case Note(run) => run in f.claims && f.claims[run].rest != [] && f.claims[run].debited.Some?
    case Close(run) => run in f.claims && f.claims[run].rest == []
    case Elsewhere(_) => true
    case EditRoster(_) => true
  }

  /** The debit and the record of its outcome are two transactions, and anything can come in between. */
  function Next(f: Fan, step: Step, fee: int): Fan {
    match step
    case Open(run, now, _, _, batch) => f.(claims := f.claims[run := Claim(now, batch, None)])
    case Debit(run, clock) =>
      if run in f.claims && f.claims[run].rest != [] then
        var (store, outcome) := ApplyOne(f.store, f.claims[run].rest[0], clock, fee);
        f.(store := store, claims := f.claims[run := f.claims[run].(debited := Some(outcome))])
      else f
    case Note(run) =>
      if run in f.claims && f.claims[run].rest != [] && f.claims[run].debited.Some? then
        var claim := f.claims[run];
        f.(attempts := Record(f.attempts, claim.rest[0].Pair(), claim.debited.value, claim.now),
           claims := f.claims[run := claim.(rest := claim.rest[1..], debited := None)])
      else f
    case Close(run) => f.(claims := map r | r in f.claims && r != run :: f.claims[r])
    case Elsewhere(event) => f.(store := Store.Step(f.store, event))
    case EditRoster(roster) => f.(roster := roster)
  }

  function Run(f: Fan, steps: seq<Step>, fee: int): Fan {
    if steps == [] then f else Next(Run(f, steps[..|steps| - 1], fee), steps[|steps| - 1], fee)
  }

  ghost predicate Legal(f: Fan, steps: seq<Step>, fee: int, maxAttempts: nat, width: nat) {
    forall i :: 0 <= i < |steps| ==> Enabled(Run(f, steps[..i], fee), steps[i], maxAttempts, width)
  }

  function Idle(store: State, roster: Roster): Fan {
    Fan(store, roster, map[], map[])
  }

  // --------------------------------------------------------------- the bound

  /** The open runs that still hold a pair. */
  ghost function Holding(f: Fan, pair: Pair): set<RunId> {
    set r | r in f.claims && pair in Pairs(f.claims[r].rest)
  }

  /** A try is counted when it is recorded, and reserved as long as a run holds the pair. */
  ghost predicate Bounded(f: Fan, maxAttempts: nat, width: nat) {
    && |f.claims| <= width
    && (forall r :: r in f.claims ==> Distinct(Pairs(f.claims[r].rest)))
    && (forall p {:trigger TriesOf(f.attempts, p)} {:trigger Holding(f, p)} ::
          TriesOf(f.attempts, p) + |Holding(f, p)| < maxAttempts + width)
  }

  lemma HoldingAtMostOpen(f: Fan, pair: Pair)
    ensures |Holding(f, pair)| <= |f.claims|
  {
    SubsetCardinality(Holding(f, pair), f.claims.Keys);
  }

  /** A pair may be claimed only while it is unowned, not closed, and tried fewer than `maxAttempts` times. */
  lemma ClaimedPairsAreOpen(f: Fan, step: Step, maxAttempts: nat, width: nat, p: Pair)
    requires maxAttempts >= 1 && step.Open? && Enabled(f, step, maxAttempts, width) && p in Pairs(step.batch)
    ensures !Owns(f.store.unlocks, p.0, p.1) && !Closed(f.attempts, p) && TriesOf(f.attempts, p) < maxAttempts
  {
    var i :| 0 <= i < |step.batch| && Pairs(step.batch)[i] == p;
    assert step.batch[i] in step.batch;
  }

  /** Recording turns a reserved try into a counted one. */
  lemma ReservationIsSpent(f: Fan, step: Step, fee: int, pair: Pair)
    requires step.Note? && step.run in f.claims && f.claims[step.run].rest != []
    requires f.claims[step.run].debited.Some? && Distinct(Pairs(f.claims[step.run].rest))
    ensures TriesOf(Next(f, step, fee).attempts, pair) + |Holding(Next(f, step, fee), pair)|
              == TriesOf(f.attempts, pair) + |Holding(f, pair)|
  {
    var f' := Next(f, step, fee);
    var rest := f.claims[step.run].rest;
    assert f'.claims.Keys == f.claims.Keys;
    assert Pairs(rest[1..]) == Pairs(rest)[1..];
    assert Pairs(rest) == [Pairs(rest)[0]] + Pairs(rest)[1..];
    if pair == rest[0].Pair() {
      assert Holding(f, pair) == Holding(f', pair) + {step.run};
      assert step.run !in Holding(f', pair);
    } else {
      assert Holding(f', pair) == Holding(f, pair);
    }
  }

  lemma HoldingElsewhere(f: Fan, step: Step, fee: int, p: Pair)
    requires step.Open? && step.run !in f.claims && p !in Pairs(step.batch)
    ensures Holding(Next(f, step, fee), p) == Holding(f, p)
  {
  }

  lemma OpenReserves(f: Fan, step: Step, fee: int, maxAttempts: nat, width: nat, p: Pair)
    requires maxAttempts >= 1 && step.Open? && Enabled(f, step, maxAttempts, width)
    requires TriesOf(f.attempts, p) + |Holding(f, p)| < maxAttempts + width
    ensures TriesOf(f.attempts, p) + |Holding(Next(f, step, fee), p)| < maxAttempts + width
  {
    if p in Pairs(step.batch) {
      var f' := Next(f, step, fee);
      HoldingAtMostOpen(f', p);
      assert f'.claims.Keys == f.claims.Keys + {step.run};
      ClaimedPairsAreOpen(f, step, maxAttempts, width, p);
    } else {
      HoldingElsewhere(f, step, fee, p);
    }
  }

  lemma OpenIsBounded(f: Fan, step: Step, fee: int, maxAttempts: nat, width: nat)
    requires maxAttempts >= 1 && Bounded(f, maxAttempts, width) && step.Open? && Enabled(f, step, maxAttempts, width)
    ensures Bounded(Next(f, step, fee), maxAttempts, width)
  {
    var f' := Next(f, step, fee);
    assert f'.claims.Keys == f.claims.Keys + {step.run};
    forall p
      ensures TriesOf(f'.attempts, p) + |Holding(f', p)| < maxAttempts + width
    {
      assert TriesOf(f.attempts, p) + |Holding(f, p)| < maxAttempts + width;
      OpenReserves(f, step, fee, maxAttempts, width, p);
    }
  }

  lemma ShorterStaysDistinct(rest: seq<Candidate>)
    requires rest != [] && Distinct(Pairs(rest))
    ensures Distinct(Pairs(rest[1..]))
  {
    assert Pairs(rest[1..]) == Pairs(rest)[1..];
  }

  lemma NoteIsBounded(f: Fan, step: Step, fee: int, maxAttempts: nat, width: nat)
    requires Bounded(f, maxAttempts, width) && step.Note? && Enabled(f, step, maxAttempts, width)
    ensures Bounded(Next(f, step, fee), maxAttempts, width)
  {
    var f' := Next(f, step, fee);
    assert f'.claims.Keys == f.claims.Keys;
    ShorterStaysDistinct(f.claims[step.run].rest);
    forall p
      ensures TriesOf(f'.attempts, p) + |Holding(f', p)| < maxAttempts + width
    {
      assert TriesOf(f.attempts, p) + |Holding(f, p)| < maxAttempts + width;
      ReservationIsSpent(f, step, fee, p);
    }
  }

  lemma StepIsBounded(f: Fan, step: Step, fee: int, maxAttempts: nat, width: nat)
    requires maxAttempts >= 1 && Bounded(f, maxAttempts, width) && Enabled(f, step, maxAttempts, width)
    ensures Bounded(Next(f, step, fee), maxAttempts, width)
  {
    if step.Open? {
      OpenIsBounded(f, step, fee, maxAttempts, width);
    } else if step.Note? {
      NoteIsBounded(f, step, fee, maxAttempts, width);
    } else {
      var f' := Next(f, step, fee);
      SubsetCardinality(f'.claims.Keys, f.claims.Keys);
      forall p
        ensures TriesOf(f'.attempts, p) + |Holding(f', p)| < maxAttempts + width
      {
        assert Holding(f', p) == Holding(f, p);
        assert TriesOf(f.attempts, p) + |Holding(f, p)| < maxAttempts + width;
      }
    }
  }

  lemma {:induction false} RunIsBounded(store: State, roster: Roster, steps: seq<Step>, fee: int, maxAttempts: nat,
        width: nat)
    requires maxAttempts >= 1 && width >= 1 && Legal(Idle(store, roster), steps, fee, maxAttempts, width)
    ensures Bounded(Run(Idle(store, roster), steps, fee), maxAttempts, width)
  {
    var f := Idle(store, roster);
    if steps == [] {
      forall p
        ensures TriesOf(f.attempts, p) + |Holding(f, p)| < maxAttempts + width
      {
        HoldingAtMostOpen(f, p);
      }
    } else {
      var init := steps[..|steps| - 1];
      assert forall i :: 0 <= i < |init| ==> init[..i] == steps[..i] && init[i] == steps[i];
      RunIsBounded(store, roster, init, fee, maxAttempts, width);
      StepIsBounded(Run(f, init, fee), steps[|steps| - 1], fee, maxAttempts, width);
    }
  }

  /**
    Over unbounded runs mixed with anything else, a pair is tried at most `maxAttempts`
    times by a single scheduler; each further run allowed to be open at once costs one more.
   */
  lemma TriesAreBounded(store: State, roster: Roster, steps: seq<Step>, fee: int, maxAttempts: nat, width: nat,
        pair: Pair)
    requires maxAttempts >= 1 && width >= 1 && Legal(Idle(store, roster), steps, fee, maxAttempts, width)
    ensures TriesOf(Run(Idle(store, roster), steps, fee).attempts, pair) <= maxAttempts + width - 1
  {
    RunIsBounded(store, roster, steps, fee, maxAttempts, width);
  }

  // ------------------------------------------------------ excluded for good

  /** Settled: the pair is owned, or its last outcome is final, and no open run holds it. */
  ghost predicate Excluded(f: Fan, pair: Pair) {
    (Owns(f.store.unlocks, pair.0, pair.1) || Closed(f.attempts, pair)) && Holding(f, pair) == {}
  }

  lemma StoreKeepsOwned(s: State, e: Event, user: UserId, chapter: ChapterId)
    requires Owns(s.unlocks, user, chapter)
    ensures Owns(Store.Step(s, e).unlocks, user, chapter)
  {
    if e.Coin? {
      var plan := ApplyShape(s, e.cmd);
      if plan.Some? {
        PostedKeepsOwned(s, e.cmd, plan.value, Apply(s, e.cmd), user, chapter);
      }
    }
  }

  lemma PostedKeepsOwned(s: State, cmd: Command, plan: Spend.Plan, o: Outcome, user: UserId, chapter: ChapterId)
    requires Posted(s, cmd, plan, o) && Owns(s.unlocks, user, chapter)
    ensures Owns(o.state.unlocks, user, chapter)
  {
    var posted, ledgerId := PostedChild(s, cmd, plan, o);
    ChildRows(posted, cmd, ledgerId, plan.entry);
    var u :| u in s.unlocks && u.user == user && u.chapter == chapter;
    assert u in o.state.unlocks;
  }

  /** Processing a pair is, for the store, at most one ordinary coin operation. */
  lemma ApplyOneKeepsOwned(s: State, c: Candidate, clock: Instant, fee: int, user: UserId, chapter: ChapterId)
    requires Owns(s.unlocks, user, chapter)
    ensures Owns(ApplyOne(s, c, clock, fee).0.unlocks, user, chapter)
  {
    var built := Service.AutoUnlockChapter(s.catalog, c.user, c.chapter, clock, fee);
    if built.Ok? {
      StoreKeepsOwned(s, Coin(built.value), user, chapter);
    }
  }

  lemma StepKeepsOwned(f: Fan, step: Step, fee: int, pair: Pair)
    requires Owns(f.store.unlocks, pair.0, pair.1)
    ensures Owns(Next(f, step, fee).store.unlocks, pair.0, pair.1)
  {
    match step
    case Debit(run, clock) =>
      if run in f.claims && f.claims[run].rest != [] {
        ApplyOneKeepsOwned(f.store, f.claims[run].rest[0], clock, fee, pair.0, pair.1);
      }
    case Elsewhere(event) => StoreKeepsOwned(f.store, event, pair.0, pair.1);
    case _ =>
  }

  lemma StepKeepsExcluded(f: Fan, step: Step, fee: int, maxAttempts: nat, width: nat, pair: Pair)
    requires maxAttempts >= 1 && Excluded(f, pair) && Enabled(f, step, maxAttempts, width)
    ensures Excluded(Next(f, step, fee), pair)
    ensures TriesOf(Next(f, step, fee).attempts, pair) == TriesOf(f.attempts, pair)
  {
    var f' := Next(f, step, fee);
    if Owns(f.store.unlocks, pair.0, pair.1) {
      StepKeepsOwned(f, step, fee, pair);
    }
    forall r | r in f'.claims
      ensures pair !in Pairs(f'.claims[r].rest)
    {
      if r in f.claims {
        assert r !in Holding(f, pair);
      }
      if step.Note? && r == step.run {
        assert Pairs(f.claims[r].rest)[1..] == Pairs(f'.claims[r].rest);
      }
      if step.Open? && r == step.run && pair in Pairs(step.batch) {
        ClaimedPairsAreOpen(f, step, maxAttempts, width, pair);
      }
    }
    if step.Note? {
      assert step.run !in Holding(f, pair);
      assert Pairs(f.claims[step.run].rest)[0] == f.claims[step.run].rest[0].Pair();
    }
  }

  /** After an unlock or any outcome other than "insufficient", a pair no run holds is never tried again. */
  lemma {:induction false} ExcludedForGood(f: Fan, steps: seq<Step>, fee: int, maxAttempts: nat, width: nat, pair: Pair)
    requires maxAttempts >= 1 && Excluded(f, pair) && Legal(f, steps, fee, maxAttempts, width)
    ensures Excluded(Run(f, steps, fee), pair)
    ensures TriesOf(Run(f, steps, fee).attempts, pair) == TriesOf(f.attempts, pair)
  {
    if steps != [] {
      var init := steps[..|steps| - 1];
      assert forall i :: 0 <= i < |init| ==> init[..i] == steps[..i] && init[i] == steps[i];
      ExcludedForGood(f, init, fee, maxAttempts, width, pair);
      assert steps[..|steps| - 1] == init;
      StepKeepsExcluded(Run(f, init, fee), steps[|steps| - 1], fee, maxAttempts, width, pair);
    }
  }

  // ------------------------------------------------------------- termination

  function Total(xs: seq<nat>): nat {
    if xs == [] then 0 else Total(xs[..|xs| - 1]) + xs[|xs| - 1]
  }

  /** The tries a pair may still cost; a try reserved by an open run is no longer left. */
  ghost function Left(f: Fan, maxAttempts: nat, width: nat, pair: Pair): nat {
    var spent := TriesOf(f.attempts, pair) + |Holding(f, pair)|;
    if spent >= maxAttempts + width - 1 then 0 else maxAttempts + width - 1 - spent
  }

  ghost function LeftOver(f: Fan, maxAttempts: nat, width: nat, universe: seq<Pair>): nat {
    Total(seq(|universe|, i requires 0 <= i < |universe| => Left(f, maxAttempts, width, universe[i])))
  }

  lemma {:induction false} TotalOrder(xs: seq<nat>, ys: seq<nat>)
    requires |xs| == |ys| && forall i :: 0 <= i < |xs| ==> xs[i] <= ys[i]
    ensures Total(xs) <= Total(ys)
    ensures (exists i :: 0 <= i < |xs| && xs[i] < ys[i]) ==> Total(xs) < Total(ys)
  {
    if xs != [] {
      TotalOrder(xs[..|xs| - 1], ys[..|ys| - 1]);
      if i :| 0 <= i < |xs| && xs[i] < ys[i] {
        assert i < |xs| - 1 ==> xs[..|xs| - 1][i] < ys[..|ys| - 1][i];
      }
    }
  }

  lemma NewHolder(f: Fan, step: Step, fee: int, p: Pair)
    requires step.Open? && step.run !in f.claims && p in Pairs(step.batch)
    ensures |Holding(Next(f, step, fee), p)| == |Holding(f, p)| + 1
  {
    var f' := Next(f, step, fee);
    forall r
      ensures r in Holding(f', p) <==> r in Holding(f, p) || r == step.run
    {
      assert r != step.run && r in f.claims ==> f'.claims[r] == f.claims[r];
    }
    assert Holding(f', p) == Holding(f, p) + {step.run} && step.run !in Holding(f, p);
  }

  /** However many runs may be open, no step gives a pair tries back, and a claim uses one up for each pair it takes. */
  lemma LeftOnlyFalls(f: Fan, step: Step, fee: int, maxAttempts: nat, width: nat, pair: Pair)
    requires maxAttempts >= 1 && Bounded(f, maxAttempts, width) && Enabled(f, step, maxAttempts, width)
    ensures Left(Next(f, step, fee), maxAttempts, width, pair) <= Left(f, maxAttempts, width, pair)
    ensures step.Open? && pair in Pairs(step.batch) ==>
              Left(Next(f, step, fee), maxAttempts, width, pair) < Left(f, maxAttempts, width, pair)
  {
    var f' := Next(f, step, fee);
    assert TriesOf(f.attempts, pair) + |Holding(f, pair)| < maxAttempts + width;
    if step.Open? && pair in Pairs(step.batch) {
      NewHolder(f, step, fee, pair);
      OpenReserves(f, step, fee, maxAttempts, width, pair);
    } else if step.Open? {
      HoldingElsewhere(f, step, fee, pair);
    } else if step.Note? {
      ReservationIsSpent(f, step, fee, pair);
    } else {
      assert Holding(f', pair) == Holding(f, pair);
    }
  }

  function NonEmptyClaims(steps: seq<Step>): nat {
    if steps == [] then 0
    else NonEmptyClaims(steps[..|steps| - 1]) +
         if steps[|steps| - 1].Open? && steps[|steps| - 1].batch != [] then 1 else 0
  }

  lemma StepSpendsATry(f: Fan, step: Step, fee: int, maxAttempts: nat, width: nat, universe: seq<Pair>)
    requires maxAttempts >= 1 && Bounded(f, maxAttempts, width) && Enabled(f, step, maxAttempts, width)
    requires step.Open? ==> forall p :: p in Pairs(step.batch) ==> p in universe
    ensures LeftOver(Next(f, step, fee), maxAttempts, width, universe) + NonEmptyClaims([step])
              <= LeftOver(f, maxAttempts, width, universe)
  {
    var f' := Next(f, step, fee);
    var xs := seq(|universe|, i requires 0 <= i < |universe| => Left(f', maxAttempts, width, universe[i]));
    var ys := seq(|universe|, i requires 0 <= i < |universe| => Left(f, maxAttempts, width, universe[i]));
    forall i | 0 <= i < |universe|
      ensures xs[i] <= ys[i]
      ensures step.Open? && universe[i] in Pairs(step.batch) ==> xs[i] < ys[i]
    {
      LeftOnlyFalls(f, step, fee, maxAttempts, width, universe[i]);
    }
    assert NonEmptyClaims([step][..0]) == 0;
    if step.Open? && step.batch != [] {
      var p := Pairs(step.batch)[0];
      assert p in Pairs(step.batch);
      var k :| 0 <= k < |universe| && universe[k] == p;
      assert xs[k] < ys[k];
    }
    TotalOrder(xs, ys);
  }

  /**
    Without new chapters or subscriptions — every pair ever claimed is in a fixed list — each
    non-empty run uses up tries that never come back, however many runs may be open at once, so the
    fan-out falls silent after a bounded number of them.
   */
  lemma {:induction false} FanOutFallsSilent(store: State, roster: Roster, steps: seq<Step>, fee: int,
        maxAttempts: nat, width: nat, universe: seq<Pair>)
    requires maxAttempts >= 1 && width >= 1 && Legal(Idle(store, roster), steps, fee, maxAttempts, width)
    requires forall i, p :: 0 <= i < |steps| && steps[i].Open? && p in Pairs(steps[i].batch) ==> p in universe
    ensures NonEmptyClaims(steps) + LeftOver(Run(Idle(store, roster), steps, fee), maxAttempts, width, universe)
              <= LeftOver(Idle(store, roster), maxAttempts, width, universe)
  {
    var f := Idle(store, roster);
    if steps != [] {
      var init, last := steps[..|steps| - 1], steps[|steps| - 1];
      assert forall i :: 0 <= i < |init| ==> init[..i] == steps[..i] && init[i] == steps[i];
      FanOutFallsSilent(store, roster, init, fee, maxAttempts, width, universe);
      RunIsBounded(store, roster, init, fee, maxAttempts, width);
      StepSpendsATry(Run(f, init, fee), last, fee, maxAttempts, width, universe);
      assert [last][..0] == [];
    }
  }

  lemma {:induction false} TotalOfEqual(xs: seq<nat>, x: nat)
    requires forall i :: 0 <= i < |xs| ==> xs[i] == x
    ensures Total(xs) == |xs| * x
  {
    if xs != [] {
      var n := |xs| - 1;
      TotalOfEqual(xs[..n], x);
      assert |xs| * x == n * x + x;
    }
  }

  lemma LeftAtTheStart(f: Fan, maxAttempts: nat, width: nat, universe: seq<Pair>)
    requires f.attempts == map[] && f.claims == map[] && maxAttempts + width >= 1
    ensures LeftOver(f, maxAttempts, width, universe) == |universe| * (maxAttempts + width - 1)
  {
    var xs := seq(|universe|, i requires 0 <= i < |universe| => Left(f, maxAttempts, width, universe[i]));
    forall i | 0 <= i < |xs|
      ensures xs[i] == maxAttempts + width - 1
    {
      assert Holding(f, universe[i]) == {};
    }
    TotalOfEqual(xs, maxAttempts + width - 1);
  }

  /** In numbers: with n pairs there are at most n times (`maxAttempts` + `width` - 1) non-empty runs. */
  lemma NonEmptyRunsAreBounded(store: State, roster: Roster, steps: seq<Step>, fee: int, maxAttempts: nat, width: nat,
        universe: seq<Pair>)
    requires maxAttempts >= 1 && width >= 1 && Legal(Idle(store, roster), steps, fee, maxAttempts, width)
    requires forall i, p :: 0 <= i < |steps| && steps[i].Open? && p in Pairs(steps[i].batch) ==> p in universe
    ensures NonEmptyClaims(steps) <= |universe| * (maxAttempts + width - 1)
  {
    FanOutFallsSilent(store, roster, steps, fee, maxAttempts, width, universe);
    LeftAtTheStart(Idle(store, roster), maxAttempts, width, universe);
  }

  // ------------------------------------------------------------ the job itself

  /** What one more candidate adds to the store, the attempts and the count of unlocks. */
  function ProcessNext(done: (State, map<Pair, Attempt>, nat), c: Candidate, now: Instant, clock: Instant, fee: int)
    : (State, map<Pair, Attempt>, nat)
  {
    var (s, outcome) := ApplyOne(done.0, c, clock, fee);
    (s, Record(done.1, c.Pair(), outcome, now), done.2 + if outcome == Unlocked then 1 else 0)
  }

  /** Processing a claimed batch with nothing else in between, the clock read anew for each debit. */
  function ProcessAll(s: State, attempts: map<Pair, Attempt>, batch: seq<Candidate>, now: Instant,
        clocks: seq<Instant>, fee: int)
    : (State, map<Pair, Attempt>, nat)
    requires |batch| <= |clocks|
  {
    if batch == [] then (s, attempts, 0)
    else
      var n := |batch| - 1;
      ProcessNext(ProcessAll(s, attempts, batch[..n], now, clocks, fee), batch[n], now, clocks[n], fee)
  }

  lemma ProcessOneMore(s: State, attempts: map<Pair, Attempt>, batch: seq<Candidate>, i: nat, now: Instant,
        clocks: seq<Instant>, fee: int)
    requires i < |batch| <= |clocks|
    ensures ProcessAll(s, attempts, batch[..i + 1], now, clocks, fee)
              == ProcessNext(ProcessAll(s, attempts, batch[..i], now, clocks, fee), batch[i], now, clocks[i], fee)
  {
    assert batch[..i + 1][..i] == batch[..i];
  }

  class Job {
    const db: WalletDb.Database
    var attempts: map<Pair, Attempt>

    constructor (db: WalletDb.Database)
      ensures this.db == db && attempts == map[]
    {
      this.db := db;
      attempts := map[];
    }

    /** Debits one subscriber in its own transaction and names the outcome. */
    method Debit(c: Candidate, clock: Instant, fee: int) returns (outcome: AttemptOutcome)
      modifies db
      ensures (db.Snapshot(), outcome) == ApplyOne(old(db.Snapshot()), c, clock, fee)
    {
      if c.maxCoins > 0 && c.price > c.maxCoins {
        return OverCap;
      }
      var built := Service.AutoUnlockChapter(db.catalog, c.user, c.chapter, clock, fee);
      if built.Err? {
        return Skipped;
      }
      var r := db.Apply(built.value);
      if r.Ok? {
        return Unlocked;
      }
      match r.error
      case AlreadyUnlocked => return Skipped;
      case NotFound => return Skipped;
      case ChapterNotForSale => return Skipped;
      case _ => return Insufficient;
    }

    /** One candidate: debit, record the outcome, and count it when it unlocked. */
    method ProcessOne(c: Candidate, now: Instant, clock: Instant, fee: int, processed: nat) returns (count: nat)
      modifies this, db
      ensures (db.Snapshot(), attempts, count)
                == ProcessNext((old(db.Snapshot()), old(attempts), processed), c, now, clock, fee)
    {
      var outcome := Debit(c, clock, fee);
      attempts := Record(attempts, c.Pair(), outcome, now);
      count := processed + if outcome == Unlocked then 1 else 0;
    }

    /** The loop over a claimed batch, counting the unlocks; the clock is read for each debit. */
    method Run(claimed: seq<Candidate>, now: Instant, clocks: seq<Instant>, fee: int) returns (processed: nat)
      requires |claimed| <= |clocks|
      modifies this, db
      ensures (db.Snapshot(), attempts, processed)
                == ProcessAll(old(db.Snapshot()), old(attempts), claimed, now, clocks, fee)
    {
      processed := 0;
      ghost var s0, attempts0 := db.Snapshot(), attempts;
      ghost var done := (s0, attempts0, 0);
      for i := 0 to |claimed|
        invariant (db.Snapshot(), attempts, processed) == done
        invariant done == ProcessAll(s0, attempts0, claimed[..i], now, clocks, fee)
      {
        ProcessOneMore(s0, attempts0, claimed, i, now, clocks, fee);
        processed := ProcessOne(claimed[i], now, clocks[i], fee, processed);
        done := ProcessNext(done, claimed[i], now, clocks[i], fee);
      }
      assert claimed[..|claimed|] == claimed;
    }
  }
}
