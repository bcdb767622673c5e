/** What a reader is charged, or told, when something read before the wallet lock has changed since. */
module StaleReads {
  import opened Prelude
  import opened Coins
  import opened Store
  import opened LedgerTotals
  import opened Conservation
  import opened Service
  import AutoUnlock
  import Bundle

  // ------------------------------------------------------- what goes through

  /** A debit for unlocked chapters whose items, in a bundle, add up to it. */
  predicate Spends(cmd: Command) {
    && cmd.op.kind == SpendUnlock && cmd.op.amount > 0
    && (cmd.child.ChapterUnlock? || (cmd.child.ArcBundle? && Allocated(cmd.child.items) == cmd.op.amount))
  }

  predicate Affordable(s: State, cmd: Command) {
    WalletOf(s, cmd.user).paid + WalletOf(s, cmd.user).EffectiveBonus(cmd.now) >= cmd.op.amount
  }

  predicate NewKey(s: State, cmd: Command) {
    cmd.key == "" || FindKey(s.ledger, cmd.user, cmd.key) == None
  }

  /** Once the checks have passed, the child rows are written. */
  lemma ChildIsWritten(s: State, posted: State, cmd: Command, id: nat, entry: Spend.Entry)
    requires Spends(cmd) && CheckChild(s, cmd) == None && posted.unlocks == s.unlocks
    ensures WriteChild(posted, cmd, id, entry).Ok?
  {
    match cmd.child
    case ChapterUnlock(chapter, _, _) =>
      UnlockBackstopIsDead(s, cmd,
        [UnlockRow(cmd.user, chapter, ToInt16(-(entry.delta + entry.bonusDelta)), id, cmd.now)], id);
    case ArcBundle(items) =>
      UnlockBackstopIsDead(s, cmd, ItemUnlocks(cmd, items, id), id);
  }

  lemma FreshSpendIff(s: State, cmd: Command)
    requires Spends(cmd) && WalletOf(s, cmd.user).Healthy()
    ensures ApplyFresh(s, cmd).Ok? <==> CheckChild(s, cmd) == None && Affordable(s, cmd)
    ensures ApplyFresh(s, cmd).Ok? ==> !ApplyFresh(s, cmd).value.1.replayed
  {
    var planned := Spend.PlanSpend(WalletOf(s, cmd.user), cmd.op.amount, cmd.now);
    assert PlanFor(WalletOf(s, cmd.user), cmd) == planned;
    if CheckChild(s, cmd) == None && planned.Ok? {
      var rows := PlanRows(cmd, planned.value, |s.ledger| + 1);
      ChildIsWritten(s, Post(s, cmd, planned.value), cmd, rows[|rows| - 1].id, planned.value.entry);
    }
  }

  /**
    A new spend goes through exactly when its key is new, its checks pass and the wallet covers it:
    nothing else can refuse it.
   */
  lemma SpendGoesThroughIff(s: State, cmd: Command)
    requires Spends(cmd) && WalletOf(s, cmd.user).Healthy()
    ensures (Apply(s, cmd).result.Ok? && !Apply(s, cmd).result.value.replayed)
            <==> NewKey(s, cmd) && CheckChild(s, cmd) == None && Affordable(s, cmd)
  {
    var locked := EnsureWallet(s, cmd.user);
    EmptyRowIsInvisible(s, cmd);
    FreshSpendIff(locked, cmd);
  }

  // ------------------------------------------------------ the price at commit

  /** One reader with purchased coins, and nothing else in the tables. */
  function Rich(user: UserId, coins: nat, cat: Catalog): State {
    State(map[user := Balance(coins, 0, None)], [], [], [], [], cat)
  }

  /** Applied to this state, the command debits what the state asks for the chapter. */
  predicate ChargesThePrice(s: State, cmd: Command, chapter: ChapterId) {
    var r := Apply(s, cmd).result;
    r.Ok? && !r.value.replayed && chapter in s.catalog.chapters ==>
      Debit(r.value.ledger, s.catalog.chapters[chapter].price)
  }

  lemma FirstUnlockGoesThrough(read: Catalog, user: UserId, chapter: ChapterId, key: string, now: Instant, fee: int,
          cat: Catalog)
    requires UnlockChapter(read, user, chapter, key, now, fee).Ok?
    ensures var cmd := UnlockChapter(read, user, chapter, key, now, fee).value;
            var o := Apply(Rich(user, cmd.op.amount, cat), cmd);
            o.result.Ok? && !o.result.value.replayed
  {
    var cmd := UnlockChapter(read, user, chapter, key, now, fee).value;
    SpendGoesThroughIff(Rich(user, cmd.op.amount, cat), cmd);
  }

  /**
    What an unlock's caller can rely on. Let the catalogue at commit be any of some possible ones:
    over all states with such a catalogue the debit is the price at commit exactly when every one
    of them that lists the chapter keeps the price that was read.
   */
  lemma PriceIsGuaranteedIff(read: Catalog, user: UserId, chapter: ChapterId, key: string, now: Instant, fee: int,
        possible: set<Catalog>)
    requires UnlockChapter(read, user, chapter, key, now, fee).Ok?
    ensures chapter in read.chapters
    ensures (forall s: State :: s.catalog in possible && WalletOf(s, user).Healthy() ==>
               ChargesThePrice(s, UnlockChapter(read, user, chapter, key, now, fee).value, chapter))
            <==> (forall cat :: cat in possible && chapter in cat.chapters ==>
              cat.chapters[chapter].price == read.chapters[chapter].price)
  {
    var cmd := UnlockChapter(read, user, chapter, key, now, fee).value;
    if forall cat :: cat in possible && chapter in cat.chapters ==>
      cat.chapters[chapter].price == read.chapters[chapter].price {
      forall s: State | s.catalog in possible && WalletOf(s, user).Healthy()
        ensures ChargesThePrice(s, cmd, chapter)
      {
        if Apply(s, cmd).result.Ok? && !Apply(s, cmd).result.value.replayed {
          UnlockChargesThePriceRead(read, user, chapter, key, now, fee, s);
        }
      }
    } else {
      var cat :| cat in possible && chapter in cat.chapters
        && cat.chapters[chapter].price != read.chapters[chapter].price;
      var s := Rich(user, cmd.op.amount, cat);
      FirstUnlockGoesThrough(read, user, chapter, key, now, fee, cat);
      UnlockChargesThePriceRead(read, user, chapter, key, now, fee, s);
      assert !ChargesThePrice(s, cmd, chapter);
    }
  }

  /** Chapter 1 of novel 10, published at the price. */
  function AtPrice(price: Price): Catalog {
    Catalog(map[1 := ChapterRow(10, 1, Published, price, None, None)], map[10 := NovelRow(None, false, false)],
            map[], map[], {})
  }

  /** Read at five coins, raised to seven before the lock: five are debited. */
  lemma StalePriceIsCharged(fee: int)
    ensures var built := UnlockChapter(AtPrice(5), 7, 1, "k", 0, fee);
            && built.Ok?
            && var o := Apply(Rich(7, 5, AtPrice(7)), built.value);
               o.result.Ok? && !o.result.value.replayed && Debit(o.result.value.ledger, 5)
                 && o.state.catalog.chapters[1].price == 7
  {
    var cat := AtPrice(5);
    assert ChapterForSale(cat, 1) == Ok(ToSale(1, cat.chapters[1], cat.novels[10]));
    FirstUnlockGoesThrough(cat, 7, 1, "k", 0, fee, AtPrice(7));
    UnlockChargesThePriceRead(cat, 7, 1, "k", 0, fee, Rich(7, 5, AtPrice(7)));
    var plan := ApplyShape(Rich(7, 5, AtPrice(7)), UnlockChapter(cat, 7, 1, "k", 0, fee).value);
  }

  // ------------------------------------------------ the cap of a subscription

  /** What an automatic unlock charges: the price as read again when it runs, or nothing. */
  lemma AutoUnlockCharges(s: State, c: AutoUnlock.Candidate, clock: Instant, fee: int)
    requires WalletOf(s, c.user).Healthy()
    ensures AutoUnlock.ApplyOne(s, c, clock, fee).1 != AutoUnlock.Unlocked ==> CoinsTaken(s, c, clock, fee) == 0
    ensures CoinsTaken(s, c, clock, fee) != 0 ==>
              ChapterForSale(s.catalog, c.chapter).Ok?
              && CoinsTaken(s, c, clock, fee) == s.catalog.chapters[c.chapter].price
  {
    var built := AutoUnlockChapter(s.catalog, c.user, c.chapter, clock, fee);
    if built.Ok? {
      var plan := ApplyShape(s, built.value);
    }
  }

  /** The coins that debiting a candidate takes. */
  function CoinsTaken(s: State, c: AutoUnlock.Candidate, clock: Instant, fee: int): int {
    var s' := AutoUnlock.ApplyOne(s, c, clock, fee).0;
    if |s'.ledger| <= |s.ledger| then 0
    else -(s'.ledger[|s'.ledger| - 1].delta + s'.ledger[|s'.ledger| - 1].bonusDelta)
  }

  lemma FirstAutoUnlockCharges(c: AutoUnlock.Candidate, cat: Catalog, clock: Instant, fee: int) returns (s: State)
    requires !(c.maxCoins > 0 && c.price > c.maxCoins)
    requires ChapterForSale(cat, c.chapter).Ok? && cat.chapters[c.chapter].price > 0
    ensures s.catalog == cat && WalletOf(s, c.user).Healthy()
    ensures CoinsTaken(s, c, clock, fee) == cat.chapters[c.chapter].price
  {
    var cmd := AutoUnlockChapter(cat, c.user, c.chapter, clock, fee).value;
    s := Rich(c.user, cmd.op.amount, cat);
    SpendGoesThroughIff(s, cmd);
    var plan := ApplyShape(s, cmd);
  }

  /**
    The cap is checked against the price the candidate was claimed at, the debit reads the price
    again. Let the catalogue at the debit be any of some possible ones: a claimed candidate within
    its cap never costs more than the cap exactly when none of them sells the chapter above it.
   */
  lemma CapIsKeptIff(c: AutoUnlock.Candidate, clock: Instant, fee: int, possible: set<Catalog>)
    requires 0 < c.price <= c.maxCoins
    ensures (forall s: State :: s.catalog in possible && WalletOf(s, c.user).Healthy() ==>
              CoinsTaken(s, c, clock, fee) <= c.maxCoins)
            <==> (forall cat :: cat in possible && ChapterForSale(cat, c.chapter).Ok? ==>
              cat.chapters[c.chapter].price <= c.maxCoins)
  {
    if forall cat :: cat in possible && ChapterForSale(cat, c.chapter).Ok? ==>
      cat.chapters[c.chapter].price <= c.maxCoins {
      forall s: State | s.catalog in possible && WalletOf(s, c.user).Healthy()
        ensures CoinsTaken(s, c, clock, fee) <= c.maxCoins
      {
        AutoUnlockCharges(s, c, clock, fee);
      }
    } else {
      var cat :| cat in possible && ChapterForSale(cat, c.chapter).Ok? && cat.chapters[c.chapter].price > c.maxCoins;
      var s := FirstAutoUnlockCharges(c, cat, clock, fee);
    }
  }

  /** Claimed at two coins under a cap of three, raised to five before the debit: five are taken. */
  lemma CapCanBeExceeded(fee: int) returns (s: State)
    ensures s.catalog == AtPrice(5) && CoinsTaken(s, AutoUnlock.Candidate(7, 1, 2, 3), 0, fee) == 5
  {
    var cat := AtPrice(5);
    assert ChapterForSale(cat, 1) == Ok(ToSale(1, cat.chapters[1], cat.novels[10]));
    s := FirstAutoUnlockCharges(AutoUnlock.Candidate(7, 1, 2, 3), cat, 0, fee);
  }

  // --------------------------------------------------- the arc of a bundle retry

  /** Two arcs of one chapter each. */
  const TWO_ARCS := Catalog(
    map[1 := ChapterRow(10, 1, Published, 10, None, None), 2 := ChapterRow(10, 2, Published, 10, None, None)],
    map[10 := NovelRow(None, true, false)], map[1 := ArcRow(10, 1, 1), 2 := ArcRow(10, 2, 2)], map[], {})

  /** The listing of an arc that has the chapter of its own number. */
  function Listing(arc: ChapterId): seq<ChapterSale>
    requires arc in TWO_ARCS.chapters
  {
    [ToSale(arc, TWO_ARCS.chapters[arc], TWO_ARCS.novels[10])]
  }

  lemma OneChapterQuote(s: State, arc: ChapterId, fee: int)
    requires s.catalog == TWO_ARCS && arc in TWO_ARCS.chapters && !Owns(s.unlocks, 7, arc)
    ensures var r := QuoteArc(s, 7, arc, Listing(arc), 0, fee);
            && r.Ok? && r.value.quote.total == 9 && |r.value.items| == 1
            && r.value.items[0].chapter == arc && r.value.items[0].listPrice == 10 && r.value.items[0].coins == 9
  {
    var listing := Listing(arc);
    assert listing[..0] == [];
    assert WantedOf(s, 7, 0, listing) == listing;
    var prices := Prices(listing);
    assert prices == [10] && prices[..0] == [] && Sum(prices) == 10;
    var quoted := Bundle.Quote(prices, Bundle.ARC_BUNDLE_DISCOUNT_PERCENT);
    Bundle.QuoteIsExact(prices, Bundle.ARC_BUNDLE_DISCOUNT_PERCENT);
    var shares := quoted.value.perChapter;
    assert shares[..0] == [] && Sum(shares) == shares[0];
  }

  lemma OneChapterChecks(s: State, cmd: Command, arc: ChapterId)
    requires s.catalog == TWO_ARCS && arc in TWO_ARCS.chapters && !Owns(s.unlocks, cmd.user, arc)
    requires cmd.child.ArcBundle? && |cmd.child.items| == 1
    requires cmd.child.items[0].chapter == arc && cmd.child.items[0].listPrice == 10
    ensures CheckChild(s, cmd) == None
  {
    var items := cmd.child.items;
    var ids := ItemIds(items);
    var rows := ChaptersIn(s.catalog.chapters, ids);
    assert ids == [arc] && items == [items[0]];
    assert rows.Keys == {arc} && |rows| == |rows.Keys|;
  }

  /** A key first used for arc 1 and sent again for arc 2: the receipt is arc 1's, and arc 2 stays unbought. */
  lemma WrongArcIsAcknowledged(fee: int) returns (s: State, first: Command, again: Command)
    ensures QuoteArc(s, 7, 1, Listing(1), 0, fee).Ok? && QuoteArc(s, 7, 2, Listing(2), 0, fee).Ok?
    ensures first == UnlockArc(7, 1, QuoteArc(s, 7, 1, Listing(1), 0, fee).value, "k", 0)
    ensures again == UnlockArc(7, 2, QuoteArc(s, 7, 2, Listing(2), 0, fee).value, "k", 0)
    ensures Apply(s, first).result.Ok? && again.key == first.key
    ensures var answer := ReplayByKey(Apply(s, first).state, 7, again.key);
            answer.Some? && answer.value.ledger.refId == Some(1) && again.op.refId == Some(2)
    ensures Apply(Apply(s, first).state, again).result == Err(IdempotencyConflict)
  {
    s := Rich(7, 9, TWO_ARCS);
    OneChapterQuote(s, 1, fee);
    OneChapterQuote(s, 2, fee);
    first := UnlockArc(7, 1, QuoteArc(s, 7, 1, Listing(1), 0, fee).value, "k", 0);
    again := UnlockArc(7, 2, QuoteArc(s, 7, 2, Listing(2), 0, fee).value, "k", 0);
    var items := first.child.items;
    assert items[..0] == [] && Allocated(items) == 9;
    OneChapterChecks(s, first, 1);
    SpendGoesThroughIff(s, first);
    BundleRetryIgnoresTheArc(s, first, [], 1, 2, again);
  }
}
