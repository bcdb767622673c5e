/**
  The nightly write-off as a loop: it asks for a batch of lapsed wallets, writes each off under the
  wallet's key for the day, and goes on until a batch is not full. A wallet whose key for the day is
  used stays lapsed and comes back.
 */
module ExpiryLoop {
  import opened Prelude
  import opened Coins
  import opened Spend
  import opened Store
  import Service
  import WalletDb

  // ----------------------------------------------------------- who is written off

  function LapsedSet(s: State, now: Instant): set<UserId> {
    set u | u in s.wallets && ExpiresFirst(s.wallets[u], now)
  }

  function DayKey(s: State, u: UserId, date: string): Option<LedgerRow> {
    FindKey(s.ledger, u, Service.BonusExpireKey(u, date))
  }

  /** Lapsed, and the key for the day already answered. */
  function Stuck(s: State, date: string, now: Instant): set<UserId> {
    set u | u in LapsedSet(s, now) && DayKey(s, u, date).Some?
  }

  function Waiting(s: State, date: string, now: Instant): set<UserId> {
    LapsedSet(s, now) - Stuck(s, date, now)
  }

  /** Wallets are sound, and a day's key has only ever been used for the write-off. */
  ghost predicate Tidy(s: State, date: string) {
    && (forall u :: WalletOf(s, u).Healthy())
    && (forall u :: DayKey(s, u, date).Some? ==> SameTarget(DayKey(s, u, date).value, Service.ExpireBonus(u, date, 0)))
  }

  function WrittenOff(s: State, u: UserId, date: string, now: Instant): State {
    Apply(s, Service.ExpireBonus(u, date, now)).state
  }

  lemma UsedKeyChangesNothing(s: State, u: UserId, date: string, now: Instant)
    requires Tidy(s, date) && u in Stuck(s, date, now)
    ensures WrittenOff(s, u, date, now) == s && Apply(s, Service.ExpireBonus(u, date, now)).result.Ok?
  {
  }

  /** What a write-off does to its wallet and its key. */
  lemma FirstWriteOff(s: State, u: UserId, date: string, now: Instant)
    requires Tidy(s, date) && u in Waiting(s, date, now)
    ensures Apply(s, Service.ExpireBonus(u, date, now)).result.Ok?
    ensures WrittenOff(s, u, date, now).wallets == s.wallets[u := Balance(s.wallets[u].paid, 0, None)]
    ensures WrittenOff(s, u, date, now).ledger ==
            s.ledger + [ToLedgerRow(Service.ExpireBonus(u, date, now), Spend.WriteOff(s.wallets[u]),
                                    Service.BonusExpireKey(u, date), |s.ledger| + 1)]
  {
  }

  lemma OtherKeysStay(s: State, u: UserId, v: UserId, date: string, now: Instant)
    requires Tidy(s, date) && u in Waiting(s, date, now)
    ensures v != u ==> DayKey(WrittenOff(s, u, date, now), v, date) == DayKey(s, v, date)
    ensures v == u ==> DayKey(WrittenOff(s, u, date, now), v, date).Some?
    ensures v == u ==> SameTarget(DayKey(WrittenOff(s, u, date, now), v, date).value, Service.ExpireBonus(v, date, 0))
  {
    var s' := WrittenOff(s, u, date, now);
    FirstWriteOff(s, u, date, now);
    assert s'.ledger[..|s.ledger|] == s.ledger;
  }

  /** A write-off takes its wallet off those waiting, and leaves the stuck ones stuck. */
  lemma FirstWriteOffLeaves(s: State, u: UserId, date: string, now: Instant)
    requires Tidy(s, date) && u in Waiting(s, date, now)
    ensures var s' := WrittenOff(s, u, date, now);
            && Tidy(s', date) && LapsedSet(s', now) == LapsedSet(s, now) - {u}
            && Stuck(s', date, now) == Stuck(s, date, now)
  {
    var s' := WrittenOff(s, u, date, now);
    FirstWriteOff(s, u, date, now);
    forall v
      ensures WalletOf(s', v).Healthy()
      ensures DayKey(s', v, date).Some? ==> SameTarget(DayKey(s', v, date).value, Service.ExpireBonus(v, date, 0))
      ensures v != u ==> DayKey(s', v, date) == DayKey(s, v, date)
    {
      assert v != u ==> WalletOf(s', v) == WalletOf(s, v);
      OtherKeysStay(s, u, v, date, now);
    }
  }

  lemma WriteOffLeaves(s: State, u: UserId, date: string, now: Instant)
    requires Tidy(s, date) && u in LapsedSet(s, now)
    ensures Apply(s, Service.ExpireBonus(u, date, now)).result.Ok?
    ensures var s' := WrittenOff(s, u, date, now);
            && Tidy(s', date) && LapsedSet(s', now) == LapsedSet(s, now) - (Waiting(s, date, now) * {u})
            && Stuck(s', date, now) == Stuck(s, date, now) && Waiting(s', date, now) == Waiting(s, date, now) - {u}
  {
    if u in Stuck(s, date, now) {
      UsedKeyChangesNothing(s, u, date, now);
    } else {
      FirstWriteOff(s, u, date, now);
      FirstWriteOffLeaves(s, u, date, now);
    }
  }

  // -------------------------------------------------------------- round by round

  /** An answer to the query: as many lapsed wallets as the batch holds, in whatever order. */
  ghost predicate IsPage(s: State, now: Instant, batch: nat, page: seq<UserId>) {
    && Distinct(page) && Elements(page) <= LapsedSet(s, now)
    && |page| == if |LapsedSet(s, now)| < batch then |LapsedSet(s, now)| else batch
  }

  function PassOver(s: State, page: seq<UserId>, date: string, now: Instant): State {
    if page == [] then s
    else WrittenOff(PassOver(s, page[..|page| - 1], date, now), page[|page| - 1], date, now)
  }

  lemma {:induction false} PassLeaves(s: State, page: seq<UserId>, date: string, now: Instant)
    requires Tidy(s, date) && Distinct(page) && Elements(page) <= LapsedSet(s, now)
    ensures var s' := PassOver(s, page, date, now);
            && Tidy(s', date) && Stuck(s', date, now) == Stuck(s, date, now)
            && Waiting(s', date, now) == Waiting(s, date, now) - Elements(page)
            && LapsedSet(s', now) == LapsedSet(s, now) - (Waiting(s, date, now) * Elements(page))
  {
    if page != [] {
      var n := |page| - 1;
      var init, u := page[..n], page[n];
      assert Elements(page) == Elements(init) + {u};
      assert u !in Elements(init) && u in page;
      PassLeaves(s, init, date, now);
      WriteOffLeaves(PassOver(s, init, date, now), u, date, now);
    }
  }

  /** Rounds with full batches, after each of which the loop goes on. */
  ghost predicate FullRounds(s: State, pages: seq<seq<UserId>>, date: string, now: Instant, batch: nat)
    decreases |pages|
  {
    pages != [] ==>
      && IsPage(s, now, batch, pages[0]) && |pages[0]| == batch
      && FullRounds(PassOver(s, pages[0], date, now), pages[1..], date, now, batch)
  }

  /** A full batch holds a wallet that is not stuck when the stuck ones would not fill it. */
  lemma FullPageHelps(s: State, page: seq<UserId>, date: string, now: Instant, batch: nat)
    requires IsPage(s, now, batch, page) && |page| == batch && |Stuck(s, date, now)| < batch
    ensures |Waiting(s, date, now) - Elements(page)| < |Waiting(s, date, now)|
  {
    DistinctByCount(page);
    if Waiting(s, date, now) * Elements(page) == {} {
      forall u | u in Elements(page)
        ensures u in Stuck(s, date, now)
      {
        assert u !in Waiting(s, date, now) * Elements(page);
      }
      SubsetCardinality(Elements(page), Stuck(s, date, now));
    }
    SubsetCardinality(Waiting(s, date, now) - Elements(page), Waiting(s, date, now));
  }

  lemma {:induction false} RoundsAreFew(s: State, pages: seq<seq<UserId>>, date: string, now: Instant, batch: nat)
    requires Tidy(s, date) && |Stuck(s, date, now)| < batch && FullRounds(s, pages, date, now, batch)
    ensures |pages| <= |Waiting(s, date, now)|
    decreases |pages|
  {
    if pages != [] {
      PassLeaves(s, pages[0], date, now);
      FullPageHelps(s, pages[0], date, now, batch);
      RoundsAreFew(PassOver(s, pages[0], date, now), pages[1..], date, now, batch);
    }
  }

  lemma {:induction false} SomePage(users: set<UserId>, n: nat) returns (page: seq<UserId>)
    requires n <= |users|
    ensures Distinct(page) && Elements(page) <= users && |page| == n
    decreases n
  {
    if n == 0 {
      page := [];
    } else {
      var u := Member(users);
      var rest := SomePage(users - {u}, n - 1);
      assert u !in Elements(rest);
      page := rest + [u];
      assert Elements(page) == Elements(rest) + {u};
    }
  }

  lemma {:induction false} RoundsGoOn(s: State, n: nat, date: string, now: Instant, batch: nat)
    returns (pages: seq<seq<UserId>>)
    requires Tidy(s, date) && |Stuck(s, date, now)| >= batch
    ensures |pages| == n && FullRounds(s, pages, date, now, batch)
    decreases n
  {
    if n == 0 {
      pages := [];
    } else {
      SubsetCardinality(Stuck(s, date, now), LapsedSet(s, now));
      var page := SomePage(LapsedSet(s, now), batch);
      PassLeaves(s, page, date, now);
      var more := RoundsGoOn(PassOver(s, page, date, now), n - 1, date, now, batch);
      pages := [page] + more;
      assert pages[1..] == more;
    }
  }

  ghost predicate AtMost(s: State, rounds: nat, date: string, now: Instant, batch: nat) {
    forall pages :: FullRounds(s, pages, date, now, batch) ==> |pages| <= rounds
  }

  /**
    The loop ends, whatever pages it gets, exactly when the wallets whose key for the day is already
    used would not fill a batch. Otherwise it can go round for ever, writing nothing off.
   */
  lemma LoopEndsIff(s: State, date: string, now: Instant, batch: nat)
    requires Tidy(s, date)
    ensures (exists rounds: nat :: AtMost(s, rounds, date, now, batch)) <==> |Stuck(s, date, now)| < batch
  {
    if |Stuck(s, date, now)| < batch {
      forall pages | FullRounds(s, pages, date, now, batch)
        ensures |pages| <= |Waiting(s, date, now)|
      {
        RoundsAreFew(s, pages, date, now, batch);
      }
      assert AtMost(s, |Waiting(s, date, now)|, date, now, batch);
    } else {
      forall rounds: nat
        ensures !AtMost(s, rounds, date, now, batch)
      {
        var pages := RoundsGoOn(s, rounds + 1, date, now, batch);
      }
    }
  }

  /** And once it holds, every later batch is full: the stuck wallets alone fill it. */
  lemma StuckPagesAreFull(s: State, page: seq<UserId>, date: string, now: Instant, batch: nat)
    requires Tidy(s, date) && |Stuck(s, date, now)| >= batch && IsPage(s, now, batch, page)
    ensures |page| == batch && |Stuck(PassOver(s, page, date, now), date, now)| >= batch
  {
    SubsetCardinality(Stuck(s, date, now), LapsedSet(s, now));
    PassLeaves(s, page, date, now);
  }

  // ------------------------------------------------------------- a stuck wallet

  /** Written off once today, and ten bonus coins that lapsed since. */
  function Again(): State {
    var row := ToLedgerRow(Service.ExpireBonus(7, "d", 0), Entry(0, 0, BonusExpire, 0, 0),
                           Service.BonusExpireKey(7, "d"), 1);
    State(map[7 := Balance(0, 10, Some(3))], [row], [], [], [], Catalog(map[], map[], map[], map[], {}))
  }

  /** With a batch of one, the loop then never ends. */
  lemma OneStuckWallet()
    ensures Tidy(Again(), "d") && Stuck(Again(), "d", 5) == {7}
    ensures !exists rounds: nat :: AtMost(Again(), rounds, "d", 5, 1)
  {
    var s := Again();
    assert s.ledger[..0] == [] && s.ledger == [s.ledger[0]];
    LoopEndsIff(s, "d", 5, 1);
  }

  // -------------------------------------------------------------------- the job

  ghost predicate Increasing(ids: seq<UserId>) {
    forall i, j :: 0 <= i < j < |ids| ==> ids[i] < ids[j]
  }

  /** The least users of a set in order, and the rest of them. */
  ghost predicate Leading(ids: seq<UserId>, rest: set<UserId>, all: set<UserId>) {
    && all == rest + Elements(ids) && Increasing(ids)
    && (forall u, i :: u in rest && 0 <= i < |ids| ==> ids[i] < u)
  }

  lemma OneMoreLeads(ids: seq<UserId>, rest: set<UserId>, all: set<UserId>, least: UserId)
    requires Leading(ids, rest, all) && least in rest && forall u :: u in rest ==> least <= u
    ensures Leading(ids + [least], rest - {least}, all)
  {
    assert Elements(ids + [least]) == Elements(ids) + {least};
  }

  lemma LeadingIsPage(ids: seq<UserId>, rest: set<UserId>, s: State, now: Instant, limit: nat)
    requires Leading(ids, rest, LapsedSet(s, now)) && |ids| <= limit && (|ids| == limit || rest == {})
    ensures IsPage(s, now, limit, ids)
  {
    DistinctByCount(ids);
    SubsetCardinality(Elements(ids), LapsedSet(s, now));
  }

  class BonusExpiryJob {
    const db: WalletDb.Database

    constructor (db: WalletDb.Database)
      ensures this.db == db
    {
      this.db := db;
    }

    /** The first lapsed wallets by user id. */
    method Candidates(now: Instant, limit: nat) returns (ids: seq<UserId>)
      ensures IsPage(db.Snapshot(), now, limit, ids) && Increasing(ids)
      ensures forall u, i :: u in LapsedSet(db.Snapshot(), now) && u !in ids && 0 <= i < |ids| ==> ids[i] < u
    {
      ghost var all := LapsedSet(db.Snapshot(), now);
      var rest := set u | u in db.wallets && ExpiresFirst(db.wallets[u], now);
      ids := [];
      while |ids| < limit && rest != {}
        invariant Leading(ids, rest, all) && |ids| <= limit
        decreases |rest|
      {
        var least := LeastOf(rest);
        OneMoreLeads(ids, rest, all, least);
        ids, rest := ids + [least], rest - {least};
      }
      LeadingIsPage(ids, rest, db.Snapshot(), now, limit);
    }

    /** One batch, user by user. No write-off of a lapsed wallet is refused, so the job's error exit is dead. */
    method RunPage(page: seq<UserId>, date: string, now: Instant)
      requires Tidy(db.Snapshot(), date) && Distinct(page) && Elements(page) <= LapsedSet(db.Snapshot(), now)
      modifies db
      ensures db.Snapshot() == PassOver(old(db.Snapshot()), page, date, now)
    {
      ghost var s := db.Snapshot();
      for i := 0 to |page|
        invariant db.Snapshot() == PassOver(s, page[..i], date, now)
      {
        PageStaysLapsed(s, page, i, date, now);
        var r := db.Apply(Service.ExpireBonus(page[i], date, now));
        assert r.Ok?;
        assert page[..i + 1][..i] == page[..i];
      }
      assert page[..|page|] == page;
    }

    /**
      Batch after batch until one is not full; then only wallets whose key was used are still lapsed, and
      at least those written off have been counted.
     */
    method Run(date: string, now: Instant, batch: nat) returns (processed: nat)
      requires Tidy(db.Snapshot(), date) && |Stuck(db.Snapshot(), date, now)| < batch
      modifies db
      ensures Tidy(db.Snapshot(), date)
      ensures LapsedSet(db.Snapshot(), now) == Stuck(old(db.Snapshot()), date, now)
      ensures processed >= |Waiting(old(db.Snapshot()), date, now)|
    {
      processed := 0;
      ghost var stuck, waiting := Stuck(db.Snapshot(), date, now), |Waiting(db.Snapshot(), date, now)|;
      var more := true;
      while more
        invariant Tidy(db.Snapshot(), date) && Stuck(db.Snapshot(), date, now) == stuck
        invariant !more ==> Waiting(db.Snapshot(), date, now) == {}
        invariant processed + |Waiting(db.Snapshot(), date, now)| >= waiting
        decreases |Waiting(db.Snapshot(), date, now)|, more
      {
        ghost var before := db.Snapshot();
        var page := Candidates(now, batch);
        RunPage(page, date, now);
        RoundHelps(before, page, date, now, batch, db.Snapshot());
        processed := processed + |page|;
        more := |page| == batch;
      }
    }
  }

  /** What one round leaves. */
  lemma RoundHelps(s: State, page: seq<UserId>, date: string, now: Instant, batch: nat, s': State)
    requires Tidy(s, date) && IsPage(s, now, batch, page) && |Stuck(s, date, now)| < batch
    requires s' == PassOver(s, page, date, now)
    ensures Tidy(s', date) && Stuck(s', date, now) == Stuck(s, date, now)
    ensures |page| < batch ==> Waiting(s', date, now) == {}
    ensures |page| == batch ==> |Waiting(s', date, now)| < |Waiting(s, date, now)|
    ensures |Waiting(s, date, now)| <= |Waiting(s', date, now)| + |page|
  {
    PassLeaves(s, page, date, now);
    FewerAreLeft(Waiting(s, date, now), page);
    if |page| < batch {
      ShortPageIsLast(s, page, date, now, batch);
    } else {
      FullPageHelps(s, page, date, now, batch);
    }
  }

  lemma FewerAreLeft(waiting: set<UserId>, page: seq<UserId>)
    requires Distinct(page)
    ensures |waiting| <= |waiting - Elements(page)| + |page|
  {
    DistinctByCount(page);
    assert waiting == (waiting - Elements(page)) + (waiting * Elements(page));
    SubsetCardinality(waiting * Elements(page), Elements(page));
  }

  lemma PageStaysLapsed(s: State, page: seq<UserId>, i: nat, date: string, now: Instant)
    requires Tidy(s, date) && Distinct(page) && Elements(page) <= LapsedSet(s, now) && i < |page|
    ensures var s' := PassOver(s, page[..i], date, now);
            Apply(s', Service.ExpireBonus(page[i], date, now)).result.Ok?
  {
    assert Elements(page[..i]) <= Elements(page) && page[i] in Elements(page) && page[i] !in page[..i];
    PassLeaves(s, page[..i], date, now);
    WriteOffLeaves(PassOver(s, page[..i], date, now), page[i], date, now);
  }

  lemma ShortPageIsLast(s: State, page: seq<UserId>, date: string, now: Instant, batch: nat)
    requires IsPage(s, now, batch, page) && |page| < batch
    ensures Waiting(s, date, now) - Elements(page) == {}
  {
    DistinctByCount(page);
    SubsetCardinality(Elements(page), LapsedSet(s, now));
  }
}
