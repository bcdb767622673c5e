/** What an automatic unlock comes to, pair by pair: who is claimed, what is debited, and what is remembered of it. */
module AutoUnlockOutcomes {
  import opened Prelude
  import opened Coins
  import opened Store
  import opened AutoUnlock
  import Answers
  import Postings
  import Service
  import UseCases

  // ------------------------------------------------------------- one debit

  predicate WithinCap(c: Candidate) {
    c.maxCoins <= 0 || c.price <= c.maxCoins
  }

  /** The chapter can be sold now, at a price. */
  predicate ForSale(cat: Catalog, chapter: ChapterId) {
    UseCases.Readable(cat, chapter) && cat.chapters[chapter].price > 0
  }

  predicate FirstTime(s: State, c: Candidate) {
    FindKey(s.ledger, c.user, Service.AutoUnlockKey(c.user, c.chapter)) == None
  }

  /** The wallet covers the price as it is now, whatever it was when the pair was claimed. */
  predicate CanPay(s: State, c: Candidate, clock: Instant)
    requires UseCases.Readable(s.catalog, c.chapter)
  {
    Answers.Covers(WalletOf(s, c.user), s.catalog.chapters[c.chapter].price, clock)
  }

  lemma SaleIsAnswered(s: State, c: Candidate, clock: Instant, fee: int, cmd: Command)
    requires Service.AutoUnlockChapter(s.catalog, c.user, c.chapter, clock, fee) == Ok(cmd)
    requires FirstTime(s, c) && WalletOf(s, c.user).Healthy()
    ensures ForSale(s.catalog, c.chapter)
    ensures if Owns(s.unlocks, c.user, c.chapter) then Answers.Refused(s, cmd, AlreadyUnlocked)
            else if !CanPay(s, c, clock) then Answers.Refused(s, cmd, InsufficientCoins)
            else Postings.Applied(s, cmd)
  {
    UseCases.AutoUnlockIsOfferedIff(s.catalog, c.user, c.chapter, clock, fee);
    Answers.UnlockIsAnswered(s, cmd, c.chapter);
  }

  /** The outcome of a pair debited for the first time, read off the rows, and what it changes. */
  lemma OutcomeIff(s: State, c: Candidate, clock: Instant, fee: int)
    requires FirstTime(s, c) && WalletOf(s, c.user).Healthy()
    ensures var (s', outcome) := ApplyOne(s, c, clock, fee);
            && (outcome == OverCap <==> !WithinCap(c))
            && (outcome == Skipped <==>
                  WithinCap(c) && (!ForSale(s.catalog, c.chapter) || Owns(s.unlocks, c.user, c.chapter)))
            && (outcome == Insufficient <==>
                  && WithinCap(c) && ForSale(s.catalog, c.chapter) && !Owns(s.unlocks, c.user, c.chapter)
                  && !CanPay(s, c, clock))
            && (outcome != Unlocked ==> s' == s)
            && (outcome == Unlocked ==>
                  && UseCases.Readable(s.catalog, c.chapter)
                  && UseCases.SellsChapter(s.catalog, s, s', c.user, c.chapter, fee, clock))
  {
    var built := Service.AutoUnlockChapter(s.catalog, c.user, c.chapter, clock, fee);
    UseCases.AutoUnlockIsOfferedIff(s.catalog, c.user, c.chapter, clock, fee);
    if WithinCap(c) && built.Ok? {
      var cmd := built.value;
      SaleIsAnswered(s, c, clock, fee, cmd);
      if Postings.Applied(s, cmd) {
        UseCases.AutoUnlockSells(s.catalog, c.user, c.chapter, clock, fee, s, cmd, clock);
      }
    }
  }

  /** A pair whose key is in use is bought no second time: its first receipt answers for it. */
  lemma SecondTimeIsReplayed(s: State, c: Candidate, clock: Instant, fee: int)
    requires !FirstTime(s, c) && WithinCap(c) && ForSale(s.catalog, c.chapter)
    ensures var (s', outcome) := ApplyOne(s, c, clock, fee);
            var row := FindKey(s.ledger, c.user, Service.AutoUnlockKey(c.user, c.chapter)).value;
            && s'.ledger == s.ledger && s'.unlocks == s.unlocks && s'.earnings == s.earnings
            && (forall u :: WalletOf(s', u) == WalletOf(s, u))
            && outcome ==
               if row.kind == SpendUnlock && row.refType == RefAutoUnlock && row.refId == Some(c.chapter)
               then Unlocked else Insufficient
  {
    UseCases.AutoUnlockIsOfferedIff(s.catalog, c.user, c.chapter, clock, fee);
  }

  /**
    A pair debited as soon as it is claimed is never skipped: it is over the subscriber's cap, or the
    coins do not suffice, or the chapter is unlocked at the price it was claimed at, within the cap.
   */
  lemma FreshCandidateIsNotSkipped(s: State, roster: Roster, attempts: map<Pair, Attempt>, c: Candidate,
        publishedAfter: Instant, retryBefore: Instant, maxAttempts: nat, clock: Instant, fee: int)
    requires IsCandidate(s, roster, attempts, c, publishedAfter, retryBefore, maxAttempts)
    requires FirstTime(s, c) && WalletOf(s, c.user).Healthy()
    ensures var (s', outcome) := ApplyOne(s, c, clock, fee);
            && outcome != Skipped && (outcome == OverCap <==> 0 < c.maxCoins < c.price)
            && (outcome == Unlocked ==>
                  && (c.maxCoins <= 0 || c.price <= c.maxCoins)
                  && |s'.unlocks| == |s.unlocks| + 1 && s'.unlocks[|s.unlocks|].coinsSpent == c.price)
  {
    OutcomeIff(s, c, clock, fee);
  }

  // ------------------------------------------------------------ who is claimed

  /** The candidate as the query's rows have it: subscribed and active, published since, unowned, and due. */
  predicate Due(f: Fan, c: Candidate, publishedAfter: Instant, retryBefore: Instant, maxAttempts: nat) {
    && ForSale(f.store.catalog, c.chapter) && c.price == f.store.catalog.chapters[c.chapter].price
    && !Owns(f.store.unlocks, c.user, c.chapter)
    && ((c.user, c.chapter) in f.attempts ==>
          var a := f.attempts[(c.user, c.chapter)];
          a.outcome == Insufficient && a.attempts < maxAttempts && a.at <= retryBefore)
    && var sub := (c.user, f.store.catalog.chapters[c.chapter].novel);
       && sub in f.roster.subscriptions && c.chapter in f.roster.publishedAt
       && f.roster.subscriptions[sub].active && f.roster.subscriptions[sub].maxCoins == c.maxCoins
       && f.roster.subscriptions[sub].createdAt <= f.roster.publishedAt[c.chapter]
       && publishedAfter <= f.roster.publishedAt[c.chapter]
  }

  /** Step k opened a run on a batch with the candidate in it, which was due then. */
  ghost predicate ClaimedAt(f: Fan, steps: seq<Step>, fee: int, maxAttempts: nat, k: nat, c: Candidate)
    requires k < |steps|
  {
    && steps[k].Open? && c in steps[k].batch
    && Due(AutoUnlock.Run(f, steps[..k], fee), c, steps[k].publishedAfter, steps[k].retryBefore, maxAttempts)
  }

  ghost predicate WasClaimed(f: Fan, steps: seq<Step>, fee: int, maxAttempts: nat, c: Candidate) {
    exists k: nat :: k < |steps| && ClaimedAt(f, steps, fee, maxAttempts, k, c)
  }

  lemma ClaimedStays(f: Fan, steps: seq<Step>, fee: int, maxAttempts: nat, c: Candidate)
    requires steps != [] && WasClaimed(f, steps[..|steps| - 1], fee, maxAttempts, c)
    ensures WasClaimed(f, steps, fee, maxAttempts, c)
  {
    var init := steps[..|steps| - 1];
    var k: nat :| k < |init| && ClaimedAt(f, init, fee, maxAttempts, k, c);
    assert init[..k] == steps[..k];
    assert ClaimedAt(f, steps, fee, maxAttempts, k, c);
  }

  /** Whatever an open run has still to do, it claimed while it was due. */
  lemma {:induction false} OpenClaimsWereDue(f: Fan, steps: seq<Step>, fee: int, maxAttempts: nat, width: nat,
        r: RunId, c: Candidate)
    requires f.claims == map[] && Legal(f, steps, fee, maxAttempts, width)
    requires r in AutoUnlock.Run(f, steps, fee).claims && c in AutoUnlock.Run(f, steps, fee).claims[r].rest
    ensures WasClaimed(f, steps, fee, maxAttempts, c)
  {
    if steps != [] {
      var n := |steps| - 1;
      var init, g := steps[..n], AutoUnlock.Run(f, steps[..n], fee);
      assert forall i :: 0 <= i < |init| ==> init[..i] == steps[..i] && init[i] == steps[i];
      assert Enabled(g, steps[n], maxAttempts, width);
      if r in g.claims && c in g.claims[r].rest {
        OpenClaimsWereDue(f, init, fee, maxAttempts, width, r, c);
        ClaimedStays(f, steps, fee, maxAttempts, c);
      } else {
        assert ClaimedAt(f, steps, fee, maxAttempts, n, c);
      }
    }
  }

  // -------------------------------------------------------- what is remembered

  /** What a step notes about the pair: the outcome, and the time its run stamps. */
  function NotedBy(f: Fan, step: Step, pair: Pair): seq<(AttemptOutcome, Instant)> {
    if step.Note? && step.run in f.claims && f.claims[step.run].rest != [] && f.claims[step.run].debited.Some?
       && f.claims[step.run].rest[0].Pair() == pair
    then [(f.claims[step.run].debited.value, f.claims[step.run].now)]
    else []
  }

  /** All that is noted about it, in order. */
  function Notes(f: Fan, steps: seq<Step>, fee: int, pair: Pair): seq<(AttemptOutcome, Instant)> {
    if steps == [] then []
    else
      var n := |steps| - 1;
      Notes(f, steps[..n], fee, pair) + NotedBy(AutoUnlock.Run(f, steps[..n], fee), steps[n], pair)
  }

  lemma StepNotes(f: Fan, step: Step, fee: int, pair: Pair)
    ensures var rows, rows', noted := f.attempts, Next(f, step, fee).attempts, NotedBy(f, step, pair);
            && |noted| <= 1
            && (noted == [] ==> (pair in rows' <==> pair in rows) && (pair in rows ==> rows'[pair] == rows[pair]))
            && (noted != [] ==>
                  pair in rows' && rows'[pair] == Attempt(noted[0].0, TriesOf(rows, pair) + 1, noted[0].1))
  {
  }

  /** A pair's row counts its notes and holds the last of them. */
  lemma {:induction false} RowsAreTheNotes(f: Fan, steps: seq<Step>, fee: int, pair: Pair)
    requires f.attempts == map[]
    ensures var rows, notes := AutoUnlock.Run(f, steps, fee).attempts, Notes(f, steps, fee, pair);
            && (pair in rows <==> notes != [])
            && (notes != [] ==>
                  rows[pair] == Attempt(notes[|notes| - 1].0, |notes|, notes[|notes| - 1].1))
  {
    if steps != [] {
      var n := |steps| - 1;
      RowsAreTheNotes(f, steps[..n], fee, pair);
      StepNotes(AutoUnlock.Run(f, steps[..n], fee), steps[n], fee, pair);
    }
  }

  /** The run takes the step. */
  predicate By(step: Step, run: RunId) {
    match step
    case Open(r, _, _, _, _) => r == run
    case Debit(r, _) => r == run
    case Note(r) => r == run
    case Close(r) => r == run
    case _ => false
  }

  lemma {:induction false} OthersLeave(f: Fan, steps: seq<Step>, fee: int, run: RunId)
    requires run in f.claims && forall i :: 0 <= i < |steps| ==> !By(steps[i], run)
    ensures var g := AutoUnlock.Run(f, steps, fee); run in g.claims && g.claims[run] == f.claims[run]
  {
    if steps != [] {
      assert !By(steps[|steps| - 1], run);
      OthersLeave(f, steps[..|steps| - 1], fee, run);
    }
  }

  lemma DebitIsHeld(f: Fan, run: RunId, clock: Instant, fee: int)
    requires run in f.claims && f.claims[run].rest != [] && f.claims[run].debited.None?
    ensures var f', claim := Next(f, Debit(run, clock), fee), f.claims[run];
            && run in f'.claims
            && f'.claims[run] == Claim(claim.now, claim.rest, Some(ApplyOne(f.store, claim.rest[0], clock, fee).1))
  {
  }

  lemma NoteIsWritten(f: Fan, run: RunId, c: Candidate, outcome: AttemptOutcome, fee: int)
    requires run in f.claims && f.claims[run].rest != [] && f.claims[run].rest[0] == c
    requires f.claims[run].debited == Some(outcome)
    ensures var f', claim, pair := Next(f, Note(run), fee), f.claims[run], (c.user, c.chapter);
            && f'.store == f.store
            && f'.attempts == f.attempts[pair := Attempt(outcome, TriesOf(f.attempts, pair) + 1, claim.now)]
            && run in f'.claims && f'.claims[run] == Claim(claim.now, claim.rest[1..], None)
  {
  }

  /** What is noted is what the run's own debit came to, whatever others did before it was noted. */
  lemma NotedIsDebited(f: Fan, run: RunId, clock: Instant, meanwhile: seq<Step>, fee: int, g: Fan)
    requires run in f.claims && f.claims[run].rest != [] && f.claims[run].debited.None?
    requires forall i :: 0 <= i < |meanwhile| ==> !By(meanwhile[i], run)
    requires g == AutoUnlock.Run(Next(f, Debit(run, clock), fee), meanwhile, fee)
    ensures var claim, h := f.claims[run], Next(g, Note(run), fee);
            var c := claim.rest[0];
            var outcome := ApplyOne(f.store, c, clock, fee).1;
            && h.store == g.store
            && h.attempts == g.attempts[(c.user, c.chapter) :=
                 Attempt(outcome, TriesOf(g.attempts, (c.user, c.chapter)) + 1, claim.now)]
            && run in h.claims && h.claims[run] == Claim(claim.now, claim.rest[1..], None)
  {
    var c := f.claims[run].rest[0];
    DebitIsHeld(f, run, clock, fee);
    OthersLeave(Next(f, Debit(run, clock), fee), meanwhile, fee, run);
    NoteIsWritten(g, run, c, ApplyOne(f.store, c, clock, fee).1, fee);
  }
}
