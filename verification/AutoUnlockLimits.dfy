/** How far the auto-unlock limits hold: exactly when they do, and runs that reach the bounds when they do not. */
module AutoUnlockLimits {
  import opened Prelude
  import opened Coins
  import opened Store
  import opened AutoUnlock
  import Conservation
  import LedgerTotals
  import Service
  import StaleReads

  // ------------------------------------------------------------ building runs

  lemma OneMoreStep(f: Fan, steps: seq<Step>, g: Fan, step: Step, fee: int, maxAttempts: nat, width: nat)
    returns (more: seq<Step>)
    requires Legal(f, steps, fee, maxAttempts, width) && AutoUnlock.Run(f, steps, fee) == g
    requires Enabled(g, step, maxAttempts, width)
    ensures more == steps + [step]
    ensures Legal(f, more, fee, maxAttempts, width) && AutoUnlock.Run(f, more, fee) == Next(g, step, fee)
  {
    more := steps + [step];
    assert more[..|more| - 1] == steps;
    forall i | 0 <= i < |more|
      ensures Enabled(AutoUnlock.Run(f, more[..i], fee), more[i], maxAttempts, width)
    {
      assert more[..i] == steps[..i];
      assert i == |steps| ==> steps[..i] == steps;
    }
  }

  // ---------------------------------------------------- a reader without coins

  /** One published chapter at five coins, and one subscriber without a cap or a coin. */
  const CATALOG :=
    Catalog(map[1 := ChapterRow(10, 1, Published, 5, None, None)], map[10 := NovelRow(None, false, false)],
                           map[], map[], {})

  const ROSTER := Roster(map[(7, 10) := Subscription(true, 0, 0)], map[1 := 0])

  const POOR := Candidate(7, 1, 5, 0)

  lemma DebitIsRefused(fee: int)
    ensures ApplyOne(Initial(CATALOG), POOR, 0, fee) == (Initial(CATALOG), Insufficient)
  {
    var s := Initial(CATALOG);
    var sale := Service.ToSale(1, CATALOG.chapters[1], CATALOG.novels[10]);
    assert Service.ChapterForSale(CATALOG, 1) == Ok(sale);
    var cmd := Service.AutoUnlockChapter(CATALOG, 7, 1, 0, fee).value;
    var locked := EnsureWallet(s, 7);
    assert WalletOf(locked, 7) == EMPTY_WALLET;
    assert ApplyFresh(locked, cmd) == Err(InsufficientCoins);
  }

  function Tried(k: nat): map<Pair, Attempt> {
    if k == 0 then map[] else map[(7, 1) := Attempt(Insufficient, k, 0)]
  }

  lemma TriedOnceMore(k: nat)
    ensures Record(Tried(k), (7, 1), Insufficient, 0) == Tried(k + 1) && TriesOf(Tried(k), (7, 1)) == k
  {
  }

  function UpTo(n: nat): (ids: set<RunId>)
    ensures |ids| == n && forall r :: r in ids <==> 0 <= r < n
  {
    if n == 0 then {} else UpTo(n - 1) + {n - 1}
  }

  /** Runs 0 to `open` - 1 have claimed the pair, the first `done` of them have processed it. */
  function Claims(open: nat, done: nat): (m: map<RunId, Claim>)
    ensures |m| == open
  {
    var m := map r | r in UpTo(open) :: Claim(0, if r < done then [] else [POOR], None);
    assert m.Keys == UpTo(open) && |m| == |m.Keys|;
    m
  }

  /** The poor subscriber's pair after `k` tries. */
  function Poor(k: nat, claims: map<RunId, Claim>): Fan {
    Fan(Initial(CATALOG), ROSTER, Tried(k), claims)
  }

  /** The steps lead to `k` tries, with `open` claims of which `done` are processed. */
  ghost predicate Reaches(f: Fan, steps: seq<Step>, k: nat, open: nat, done: nat, fee: int, maxAttempts: nat,
          width: nat) {
    Legal(f, steps, fee, maxAttempts, width) && AutoUnlock.Run(f, steps, fee) == Poor(k, Claims(open, done))
  }

  lemma NothingYet(f: Fan, fee: int, maxAttempts: nat, width: nat)
    requires f == Idle(Initial(CATALOG), ROSTER)
    ensures Reaches(f, [], 0, 0, 0, fee, maxAttempts, width)
  {
  }

  lemma ClaimIsEnabled(k: nat, open: nat, maxAttempts: nat, width: nat)
    requires k < maxAttempts && open < width
    ensures Enabled(Poor(k, Claims(open, 0)), Open(open, 0, 0, 0, [POOR]), maxAttempts, width)
  {
    assert !Owns(Initial(CATALOG).unlocks, 7, 1);
    assert IsCandidate(Initial(CATALOG), ROSTER, Tried(k), POOR, 0, 0, maxAttempts);
    assert Distinct(Pairs([POOR]));
  }

  lemma Claimed(k: nat, open: nat, open': nat, fee: int)
    requires open' == open + 1
    ensures Next(Poor(k, Claims(open, 0)), Open(open, 0, 0, 0, [POOR]), fee) == Poor(k, Claims(open', 0))
  {
    assert Claims(open, 0)[open := Claim(0, [POOR], None)] == Claims(open', 0);
  }

  lemma OneClaimsMore(f: Fan, steps: seq<Step>, k: nat, open: nat, open': nat, fee: int, maxAttempts: nat, width: nat)
    returns (more: seq<Step>)
    requires k < maxAttempts && open < width && open' == open + 1
    requires Reaches(f, steps, k, open, 0, fee, maxAttempts, width)
    ensures Reaches(f, more, k, open', 0, fee, maxAttempts, width)
  {
    ClaimIsEnabled(k, open, maxAttempts, width);
    Claimed(k, open, open', fee);
    more := OneMoreStep(f, steps, Poor(k, Claims(open, 0)), Open(open, 0, 0, 0, [POOR]), fee, maxAttempts, width);
  }

  /** The first of the unprocessed runs has debited in vain. */
  function Refused(k: nat, open: nat, done: nat): Fan {
    Poor(k, Claims(open, done)[done := Claim(0, [POOR], Some(Insufficient))])
  }

  lemma Debited(k: nat, open: nat, done: nat, fee: int)
    requires done < open
    ensures Next(Poor(k, Claims(open, done)), Debit(done, 0), fee) == Refused(k, open, done)
  {
    DebitIsRefused(fee);
    assert Claims(open, done)[done] == Claim(0, [POOR], None);
  }

  lemma RefusalIsNoted(k: nat, k': nat, claims: map<RunId, Claim>, run: RunId, fee: int)
    requires run in claims && claims[run] == Claim(0, [POOR], Some(Insufficient)) && k' == k + 1
    ensures Next(Poor(k, claims), Note(run), fee) == Poor(k', claims[run := Claim(0, [], None)])
  {
    TriedOnceMore(k);
    assert [POOR][1..] == [];
  }

  lemma OneMoreDone(open: nat, done: nat, done': nat, c: Claim)
    requires done < open && done' == done + 1
    ensures Claims(open, done)[done := c][done := Claim(0, [], None)] == Claims(open, done')
  {
  }

  lemma Noted(k: nat, k': nat, open: nat, done: nat, done': nat, fee: int)
    requires done < open && k' == k + 1 && done' == done + 1
    ensures Next(Refused(k, open, done), Note(done), fee) == Poor(k', Claims(open, done'))
  {
    var refused := Claim(0, [POOR], Some(Insufficient));
    RefusalIsNoted(k, k', Claims(open, done)[done := refused], done, fee);
    OneMoreDone(open, done, done', refused);
  }

  lemma OneTriesMore(f: Fan, steps: seq<Step>, k: nat, k': nat, open: nat, done: nat, done': nat, fee: int,
        maxAttempts: nat, width: nat) returns (more: seq<Step>)
    requires done < open && k' == k + 1 && done' == done + 1
    requires Reaches(f, steps, k, open, done, fee, maxAttempts, width)
    ensures Reaches(f, more, k', open, done', fee, maxAttempts, width)
  {
    Debited(k, open, done, fee);
    Noted(k, k', open, done, done', fee);
    more := OneMoreStep(f, steps, Poor(k, Claims(open, done)), Debit(done, 0), fee, maxAttempts, width);
    more := OneMoreStep(f, more, Refused(k, open, done), Note(done), fee, maxAttempts, width);
  }

  lemma TheOneCloses(f: Fan, steps: seq<Step>, k: nat, fee: int, maxAttempts: nat, width: nat) returns (more: seq<Step>)
    requires Reaches(f, steps, k, 1, 1, fee, maxAttempts, width)
    ensures Reaches(f, more, k, 0, 0, fee, maxAttempts, width)
  {
    var one := Claims(1, 1);
    assert one[0].rest == [];
    assert Next(Poor(k, one), Close(0), fee).claims == Claims(0, 0);
    more := OneMoreStep(f, steps, Poor(k, one), Close(0), fee, maxAttempts, width);
  }

  /** One run after the other, each fails. */
  lemma {:induction false} Rounds(f: Fan, k: nat, fee: int, maxAttempts: nat, width: nat) returns (steps: seq<Step>)
    requires k <= maxAttempts && width >= 1 && Reaches(f, [], 0, 0, 0, fee, maxAttempts, width)
    ensures Reaches(f, steps, k, 0, 0, fee, maxAttempts, width)
    decreases k
  {
    if k == 0 {
      steps := [];
    } else {
      var before := k - 1;
      steps := Rounds(f, before, fee, maxAttempts, width);
      steps := OneClaimsMore(f, steps, before, 0, 1, fee, maxAttempts, width);
      steps := OneTriesMore(f, steps, before, k, 1, 0, 1, fee, maxAttempts, width);
      steps := TheOneCloses(f, steps, k, fee, maxAttempts, width);
    }
  }

  /** Then as many runs as may be open at once claim the pair. */
  lemma {:induction false} AllClaim(f: Fan, k: nat, open: nat, fee: int, maxAttempts: nat, width: nat)
    returns (steps: seq<Step>)
    requires k < maxAttempts && open <= width && width >= 1 && Reaches(f, [], 0, 0, 0, fee, maxAttempts, width)
    ensures Reaches(f, steps, k, open, 0, fee, maxAttempts, width)
    decreases open
  {
    if open == 0 {
      steps := Rounds(f, k, fee, maxAttempts, width);
    } else {
      var before := open - 1;
      steps := AllClaim(f, k, before, fee, maxAttempts, width);
      steps := OneClaimsMore(f, steps, k, before, open, fee, maxAttempts, width);
    }
  }

  /** And each of them tries it. */
  lemma {:induction false} AllTry(f: Fan, k: nat, done: nat, tries: nat, fee: int, maxAttempts: nat, width: nat)
    returns (steps: seq<Step>)
    requires k < maxAttempts && done <= width && width >= 1 && tries == k + done
    requires Reaches(f, [], 0, 0, 0, fee, maxAttempts, width)
    ensures Reaches(f, steps, tries, width, done, fee, maxAttempts, width)
    decreases done
  {
    if done == 0 {
      steps := AllClaim(f, tries, width, fee, maxAttempts, width);
    } else {
      var before, fewer := done - 1, tries - 1;
      steps := AllTry(f, k, before, fewer, fee, maxAttempts, width);
      steps := OneTriesMore(f, steps, fewer, tries, width, before, done, fee, maxAttempts, width);
    }
  }

  /** The bound is reached: with `width` runs open at once, a pair can be tried `width` - 1 times too often. */
  lemma OverlappingRunsReachTheBound(fee: int, maxAttempts: nat, width: nat) returns (steps: seq<Step>)
    requires maxAttempts >= 1 && width >= 1
    ensures Legal(Idle(Initial(CATALOG), ROSTER), steps, fee, maxAttempts, width)
    ensures TriesOf(AutoUnlock.Run(Idle(Initial(CATALOG), ROSTER), steps, fee).attempts, (7, 1))
              == maxAttempts + width - 1
  {
    var tries := maxAttempts + width - 1;
    NothingYet(Idle(Initial(CATALOG), ROSTER), fee, maxAttempts, width);
    steps := AllTry(Idle(Initial(CATALOG), ROSTER), maxAttempts - 1, width, tries, fee, maxAttempts, width);
    TriedOnceMore(tries);
  }

  /** No run ever tries a pair more than `maxAttempts` times. */
  ghost predicate LimitHolds(fee: int, maxAttempts: nat, width: nat) {
    forall store, roster, steps, pair ::
      Legal(Idle(store, roster), steps, fee, maxAttempts, width) ==>
        TriesOf(AutoUnlock.Run(Idle(store, roster), steps, fee).attempts, pair) <= maxAttempts
  }

  /** The attempt limit holds over all runs exactly when runs never overlap. */
  lemma LimitHoldsIff(fee: int, maxAttempts: nat, width: nat)
    requires maxAttempts >= 1 && width >= 1
    ensures LimitHolds(fee, maxAttempts, width) <==> width == 1
  {
    if width == 1 {
      forall store, roster, steps, pair | Legal(Idle(store, roster), steps, fee, maxAttempts, width)
        ensures TriesOf(AutoUnlock.Run(Idle(store, roster), steps, fee).attempts, pair) <= maxAttempts
      {
        TriesAreBounded(store, roster, steps, fee, maxAttempts, width, pair);
      }
    } else {
      var steps := OverlappingRunsReachTheBound(fee, maxAttempts, width);
    }
  }

  // ---------------------------------------------------------- held and closed

  lemma TriesNeverFall(f: Fan, step: Step, fee: int, pair: Pair)
    ensures TriesOf(Next(f, step, fee).attempts, pair) >= TriesOf(f.attempts, pair)
  {
  }

  lemma NoteMovesOn(f: Fan, run: RunId, fee: int, pair: Pair)
    requires run in f.claims && f.claims[run].rest != [] && f.claims[run].debited.Some?
    ensures var f' := Next(f, Note(run), fee);
            && run in f'.claims && f'.claims[run].rest == f.claims[run].rest[1..]
            && (f.claims[run].rest[0].Pair() == pair ==> TriesOf(f'.attempts, pair) == TriesOf(f.attempts, pair) + 1)
  {
  }

  /** A run with candidates left debits the first, if it has not yet. */
  lemma HolderDebits(f: Fan, steps: seq<Step>, run: RunId, fee: int, maxAttempts: nat, width: nat)
    returns (more: seq<Step>, g: Fan)
    requires Legal(f, steps, fee, maxAttempts, width)
    requires var h := AutoUnlock.Run(f, steps, fee); run in h.claims && h.claims[run].rest != []
    ensures Legal(f, more, fee, maxAttempts, width) && AutoUnlock.Run(f, more, fee) == g
    ensures var h := AutoUnlock.Run(f, steps, fee);
            && run in g.claims && g.claims[run].rest == h.claims[run].rest && g.claims[run].debited.Some?
            && g.attempts == h.attempts
  {
    more, g := steps, AutoUnlock.Run(f, steps, fee);
    if g.claims[run].debited.None? {
      more := OneMoreStep(f, steps, g, Debit(run, 0), fee, maxAttempts, width);
      g := Next(g, Debit(run, 0), fee);
    }
  }

  /** It then records the outcome, and has one candidate less. */
  lemma HolderNotes(f: Fan, steps: seq<Step>, h: Fan, run: RunId, fee: int, maxAttempts: nat, width: nat, pair: Pair)
    returns (more: seq<Step>, g: Fan)
    requires Legal(f, steps, fee, maxAttempts, width) && AutoUnlock.Run(f, steps, fee) == h
    requires run in h.claims && h.claims[run].rest != []
    ensures Legal(f, more, fee, maxAttempts, width) && AutoUnlock.Run(f, more, fee) == g
    ensures run in g.claims && g.claims[run].rest == h.claims[run].rest[1..]
    ensures TriesOf(g.attempts, pair) >= TriesOf(h.attempts, pair)
    ensures h.claims[run].rest[0].Pair() == pair ==> TriesOf(g.attempts, pair) > TriesOf(h.attempts, pair)
  {
    var d;
    more, d := HolderDebits(f, steps, run, fee, maxAttempts, width);
    more := OneMoreStep(f, more, d, Note(run), fee, maxAttempts, width);
    g := Next(d, Note(run), fee);
    NoteMovesOn(d, run, fee, pair);
    TriesNeverFall(d, Note(run), fee, pair);
  }

  /** A run that holds the pair comes to it and tries it. */
  lemma {:induction false} HolderTries(f: Fan, steps: seq<Step>, h: Fan, run: RunId, i: nat, fee: int,
        maxAttempts: nat, width: nat, pair: Pair)
    returns (more: seq<Step>, end: Fan)
    requires Legal(f, steps, fee, maxAttempts, width) && AutoUnlock.Run(f, steps, fee) == h
    requires run in h.claims && i < |h.claims[run].rest| && h.claims[run].rest[i].Pair() == pair
    ensures Legal(f, more, fee, maxAttempts, width) && AutoUnlock.Run(f, more, fee) == end
    ensures TriesOf(end.attempts, pair) > TriesOf(h.attempts, pair)
    decreases i
  {
    more, end := HolderNotes(f, steps, h, run, fee, maxAttempts, width, pair);
    if i > 0 {
      var j := i - 1;
      assert h.claims[run].rest[1..][j] == h.claims[run].rest[i];
      more, end := HolderTries(f, more, end, run, j, fee, maxAttempts, width, pair);
    }
  }

  /** Whatever follows, the pair is not tried again. */
  ghost predicate NeverTriedAgain(f: Fan, fee: int, maxAttempts: nat, width: nat, pair: Pair) {
    forall steps :: Legal(f, steps, fee, maxAttempts, width) ==>
      TriesOf(AutoUnlock.Run(f, steps, fee).attempts, pair) == TriesOf(f.attempts, pair)
  }

  /** An owned pair, or one with a final outcome, is never tried again exactly when no open run still holds it. */
  lemma NeverTriedAgainIff(f: Fan, fee: int, maxAttempts: nat, width: nat, pair: Pair)
    requires maxAttempts >= 1 && (Owns(f.store.unlocks, pair.0, pair.1) || Closed(f.attempts, pair))
    ensures NeverTriedAgain(f, fee, maxAttempts, width, pair) <==> Holding(f, pair) == {}
  {
    if Holding(f, pair) == {} {
      forall steps | Legal(f, steps, fee, maxAttempts, width)
        ensures TriesOf(AutoUnlock.Run(f, steps, fee).attempts, pair) == TriesOf(f.attempts, pair)
      {
        ExcludedForGood(f, steps, fee, maxAttempts, width, pair);
      }
    } else {
      assert |Holding(f, pair)| > 0;
      var run := Member(Holding(f, pair));
      var i :| 0 <= i < |Pairs(f.claims[run].rest)| && Pairs(f.claims[run].rest)[i] == pair;
      var steps, end := HolderTries(f, [], f, run, i, fee, maxAttempts, width, pair);
    }
  }

  /** A first single unlock goes through and leaves the chapter owned. */
  lemma UnlockIsOwned(s: State, cmd: Command)
    requires cmd.child.ChapterUnlock? && Apply(s, cmd).result.Ok? && !Apply(s, cmd).result.value.replayed
    ensures Owns(Apply(s, cmd).state.unlocks, cmd.user, cmd.child.chapter)
    ensures Apply(s, cmd).state.catalog == s.catalog
  {
    var o := Apply(s, cmd);
    var plan := LedgerTotals.ApplyShape(s, cmd);
    LedgerTotals.PostedTables(s, cmd, plan.value, o);
    var posted, ledgerId := LedgerTotals.PostedChild(s, cmd, plan.value, o);
    Conservation.ChildRows(posted, cmd, ledgerId, plan.value.entry);
    var row := UnlockRow(cmd.user, cmd.child.chapter,
                         ToInt16(-(plan.value.entry.delta + plan.value.entry.bonusDelta)), ledgerId, cmd.now);
    assert row in [row] && row in o.state.unlocks;
  }

  /** The reader has the five coins, and buys the chapter by hand. */
  lemma BoughtByHand(fee: int) returns (cmd: Command)
    ensures var rich := StaleReads.Rich(7, 5, CATALOG);
            && Service.UnlockChapter(CATALOG, 7, 1, "k", 0, fee) == Ok(cmd)
            && Owns(Apply(rich, cmd).state.unlocks, 7, 1)
  {
    var sale := Service.ToSale(1, CATALOG.chapters[1], CATALOG.novels[10]);
    assert Service.ChapterForSale(CATALOG, 1) == Ok(sale);
    cmd := Service.UnlockChapter(CATALOG, 7, 1, "k", 0, fee).value;
    StaleReads.FirstUnlockGoesThrough(CATALOG, 7, 1, "k", 0, fee, CATALOG);
    UnlockIsOwned(StaleReads.Rich(7, 5, CATALOG), cmd);
  }

  lemma RichIsClaimed(f: Fan)
    requires f == Idle(StaleReads.Rich(7, 5, CATALOG), ROSTER)
    ensures Enabled(f, Open(0, 0, 0, 0, [POOR]), 1, 1)
  {
    assert !Owns(f.store.unlocks, 7, 1);
    assert IsCandidate(f.store, ROSTER, f.attempts, POOR, 0, 0, 1);
    assert Distinct(Pairs([POOR]));
  }

  lemma HeldPairIsTried(f: Fan, fee: int)
    requires f.claims == map[0 := Claim(0, [POOR], None)] && f.attempts == map[]
    ensures Holding(f, (7, 1)) != {} && TriesOf(f.attempts, (7, 1)) == 0 && Enabled(f, Debit(0, 0), 1, 1)
    ensures var debited := Next(f, Debit(0, 0), fee);
            Enabled(debited, Note(0), 1, 1) && TriesOf(Next(debited, Note(0), fee).attempts, (7, 1)) == 1
  {
    assert Pairs([POOR])[0] == (7, 1) && 0 in Holding(f, (7, 1));
    NoteMovesOn(Next(f, Debit(0, 0), fee), 0, fee, (7, 1));
  }

  lemma TwoSteps(f: Fan, a: Step, b: Step, fee: int, maxAttempts: nat, width: nat)
    requires Enabled(f, a, maxAttempts, width) && Enabled(Next(f, a, fee), b, maxAttempts, width)
    ensures Legal(f, [a, b], fee, maxAttempts, width) && AutoUnlock.Run(f, [a, b], fee) == Next(Next(f, a, fee), b, fee)
  {
    var first := OneMoreStep(f, [], f, a, fee, maxAttempts, width);
    var both := OneMoreStep(f, first, Next(f, a, fee), b, fee, maxAttempts, width);
    assert both == [a, b];
  }

  lemma ClaimThenBuy(idle: Fan, cmd: Command, fee: int) returns (f: Fan)
    requires idle == Idle(StaleReads.Rich(7, 5, CATALOG), ROSTER)
    ensures var steps := [Open(0, 0, 0, 0, [POOR]), Elsewhere(Coin(cmd))];
            Legal(idle, steps, fee, 1, 1) && AutoUnlock.Run(idle, steps, fee) == f
    ensures f.store == Apply(idle.store, cmd).state && f.claims == map[0 := Claim(0, [POOR], None)]
    ensures f.attempts == map[]
  {
    var claim, unlock := Open(0, 0, 0, 0, [POOR]), Elsewhere(Coin(cmd));
    RichIsClaimed(idle);
    TwoSteps(idle, claim, unlock, fee, 1, 1);
    f := Next(Next(idle, claim, fee), unlock, fee);
  }

  /**
    One run at a time, one try each: a subscriber's chapter is claimed, bought by hand meanwhile, and
    tried all the same.
   */
  lemma OwnedPairIsTried(fee: int) returns (claim: Step, unlock: Step, f: Fan)
    ensures var idle := Idle(StaleReads.Rich(7, 5, CATALOG), ROSTER);
            Legal(idle, [claim, unlock], fee, 1, 1) && AutoUnlock.Run(idle, [claim, unlock], fee) == f
    ensures Owns(f.store.unlocks, 7, 1) && Holding(f, (7, 1)) != {} && TriesOf(f.attempts, (7, 1)) == 0
    ensures var debited := Next(f, Debit(0, 0), fee);
            && Enabled(f, Debit(0, 0), 1, 1) && Enabled(debited, Note(0), 1, 1)
            && TriesOf(Next(debited, Note(0), fee).attempts, (7, 1)) == 1
  {
    var cmd := BoughtByHand(fee);
    claim, unlock := Open(0, 0, 0, 0, [POOR]), Elsewhere(Coin(cmd));
    f := ClaimThenBuy(Idle(StaleReads.Rich(7, 5, CATALOG), ROSTER), cmd, fee);
    HeldPairIsTried(f, fee);
  }
}
