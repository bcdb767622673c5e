/**
  Runs of the wallet service itself: every command is built by a use case from some earlier moment
  of the same run, with its own clock readings, while catalogue edits and other requests go on.
 */
module Requests {
  import opened Prelude
  import opened Coins
  import opened Spend
  import opened Store
  import opened LedgerTotals
  import opened Conservation
  import opened ExactlyOnce
  import opened Postings
  import opened Service
  import opened UseCases

  datatype Request =
    | Unlock(user: UserId, chapter: ChapterId, key: string)
    | AutoUnlock(user: UserId, chapter: ChapterId)
    | BuyArc(user: UserId, arc: int, listing: seq<ChapterSale>, key: string)
    | SendTip(user: UserId, chapter: ChapterId, coins: int, key: string)
    | Complete(user: UserId, purchase: int, key: string)
    | Correct(user: UserId, delta: int, bonusDelta: int, reason: string, actor: UserId, key: string)
    | Expire(user: UserId, date: string)

  datatype Config = Config(fee: int, bonusTTL: int)

  /** The command takes a clock reading of its own, after the checks made theirs. */
  function Stamped(built: Result<Command, Error>, now: Instant): Result<Command, Error> {
    match built
    case Err(e) => Err(e)
    case Ok(cmd) => Ok(cmd.(now := now))
  }

  function CommandOf(read: State, req: Request, cfg: Config, checkedAt: Instant, now: Instant): Result<Command, Error> {
    match req
    case Unlock(user, chapter, key) => Stamped(UnlockChapter(read.catalog, user, chapter, key, checkedAt, cfg.fee), now)
    case AutoUnlock(user, chapter) => Stamped(AutoUnlockChapter(read.catalog, user, chapter, checkedAt, cfg.fee), now)
    case BuyArc(user, arc, listing, key) =>
      (match QuoteArc(read, user, arc, listing, checkedAt, cfg.fee)
       case Err(e) => Err(e)
       case Ok(quote) => Ok(UnlockArc(user, arc, quote, key, now)))
    case SendTip(user, chapter, coins, key) =>
      Stamped(TipChapter(read.catalog, user, chapter, coins, key, checkedAt, cfg.fee), now)
    case Complete(user, purchase, key) => CompletePurchase(read, user, purchase, cfg.bonusTTL, key, now)
    case Correct(user, delta, bonusDelta, reason, actor, key) =>
      Ok(AdjustWallet(user, delta, bonusDelta, reason, actor, key, now))
    case Expire(user, date) => Ok(ExpireBonus(user, date, now))
  }

  /** The answer of the arc query on the state that was read. */
  ghost predicate ListingIsRead(read: State, req: Request) {
    req.BuyArc? && req.arc in read.catalog.arcs ==> ArcListing(read.catalog, read.catalog.arcs[req.arc], req.listing)
  }

  // --------------------------------------------------------------------- runs

  /** The state after the first k transactions. */
  function Moment(catalog: Catalog, events: seq<Event>, k: nat): State
    requires k <= |events|
  {
    Run(Initial(catalog), events[..k])
  }

  /** Some use case built the command from what an earlier moment of the run showed. */
  ghost predicate Built(catalog: Catalog, cfg: Config, past: seq<Event>, cmd: Command) {
    exists req: Request, asOf: nat, checkedAt: Instant ::
      && asOf <= |past| && checkedAt <= cmd.now && ListingIsRead(Moment(catalog, past, asOf), req)
      && CommandOf(Moment(catalog, past, asOf), req, cfg, checkedAt, cmd.now) == Ok(cmd)
  }

  lemma Builder(catalog: Catalog, cfg: Config, past: seq<Event>, cmd: Command)
    returns (req: Request, asOf: nat, checkedAt: Instant)
    requires Built(catalog, cfg, past, cmd)
    ensures asOf <= |past| && checkedAt <= cmd.now && ListingIsRead(Moment(catalog, past, asOf), req)
    ensures CommandOf(Moment(catalog, past, asOf), req, cfg, checkedAt, cmd.now) == Ok(cmd)
  {
    req, asOf, checkedAt :|
      && asOf <= |past| && checkedAt <= cmd.now && ListingIsRead(Moment(catalog, past, asOf), req)
      && CommandOf(Moment(catalog, past, asOf), req, cfg, checkedAt, cmd.now) == Ok(cmd);
  }

  /** A run of the service. Purchases are opened and abandoned and the catalogue is edited at any time. */
  ghost predicate Served(catalog: Catalog, cfg: Config, events: seq<Event>) {
    forall i :: 0 <= i < |events| && events[i].Coin? ==> Built(catalog, cfg, events[..i], events[i].cmd)
  }

  lemma ServedPrefix(catalog: Catalog, cfg: Config, events: seq<Event>)
    requires Served(catalog, cfg, events) && events != []
    ensures var init, last := events[..|events| - 1], events[|events| - 1];
            Served(catalog, cfg, init) && (last.Coin? ==> Built(catalog, cfg, init, last.cmd))
  {
    var init := events[..|events| - 1];
    forall i | 0 <= i < |init| && init[i].Coin?
      ensures Built(catalog, cfg, init[..i], init[i].cmd)
    {
      assert init[..i] == events[..i] && init[i] == events[i];
    }
  }

  lemma MomentKeeps(catalog: Catalog, events: seq<Event>, k: nat)
    requires events != [] && k < |events|
    ensures Moment(catalog, events[..|events| - 1], k) == Moment(catalog, events, k)
  {
    assert events[..|events| - 1][..k] == events[..k];
  }

  lemma CommandsAreServiceShaped(read: State, req: Request, cfg: Config, checkedAt: Instant, now: Instant)
    requires CommandOf(read, req, cfg, checkedAt, now).Ok?
    ensures ServiceShaped(CommandOf(read, req, cfg, checkedAt, now).value)
  {
    match req
    case BuyArc(user, arc, listing, key) =>
      BundlesAreServiceShaped(read, user, arc, listing, checkedAt, cfg.fee, key, now);
    case _ =>
  }

  /** So everything proved of the service's commands holds of these runs. */
  lemma ServedIsServiceRun(catalog: Catalog, cfg: Config, events: seq<Event>)
    requires Served(catalog, cfg, events)
    ensures ServiceRun(events)
  {
    forall e | e in events && e.Coin?
      ensures ServiceShaped(e.cmd)
    {
      var i :| 0 <= i < |events| && events[i] == e;
      var past := events[..i];
      var req, asOf, checkedAt := Builder(catalog, cfg, past, e.cmd);
      CommandsAreServiceShaped(Moment(catalog, past, asOf), req, cfg, checkedAt, e.cmd.now);
    }
  }

  // ------------------------------------------------- early access is respected

  /** At that moment the chapter was published at a price and, unless bought by the fan-out, open to the reader. */
  predicate OfferedIn(cat: Catalog, u: UnlockRow, refType: RefType) {
    && Readable(cat, u.chapter) && cat.chapters[u.chapter].price > 0
    && (refType != RefAutoUnlock ==> Open(cat, u.user, u.chapter, u.unlockedAt))
  }

  ghost predicate OfferedAt(catalog: Catalog, events: seq<Event>, k: nat, u: UnlockRow, refType: RefType)
    requires k <= |events|
  {
    OfferedIn(Moment(catalog, events, k).catalog, u, refType)
  }

  /** The unlock was offered at some moment of the run. */
  ghost predicate WasOffered(catalog: Catalog, events: seq<Event>, u: UnlockRow, refType: RefType) {
    exists k: nat :: k <= |events| && OfferedAt(catalog, events, k, u, refType)
  }

  ghost predicate Lawful(catalog: Catalog, events: seq<Event>, ledger: seq<LedgerRow>, u: UnlockRow) {
    1 <= u.ledgerId <= |ledger| && WasOffered(catalog, events, u, ledger[u.ledgerId - 1].refType)
  }

  ghost predicate AllLawful(catalog: Catalog, events: seq<Event>) {
    var s := Run(Initial(catalog), events);
    LawfulAll(catalog, events, s.ledger, s.unlocks)
  }

  lemma BundleOffers(read: State, req: Request, cfg: Config, checkedAt: Instant, cmd: Command, id: nat, u: UnlockRow)
    requires req.BuyArc? && ListingIsRead(read, req) && checkedAt <= cmd.now
    requires CommandOf(read, req, cfg, checkedAt, cmd.now) == Ok(cmd) && u in ItemUnlocks(cmd, cmd.child.items, id)
    ensures OfferedIn(read.catalog, u, RefArcBundle)
  {
    ArcIsQuotedIff(read, req.user, req.arc, req.listing, checkedAt, cfg.fee);
    ArcQuoteIsExact(read, req.user, req.arc, req.listing, checkedAt, cfg.fee);
    var items := cmd.child.items;
    var i :| 0 <= i < |items| && ItemUnlocks(cmd, items, id)[i] == u;
    assert ItemIds(items)[i] in ItemIds(items);
    assert Needed(read, req.user, read.catalog.arcs[req.arc], u.chapter, checkedAt);
  }

  lemma CommandOffers(read: State, req: Request, cfg: Config, checkedAt: Instant, cmd: Command, id: nat, spent: int,
        u: UnlockRow)
    requires ListingIsRead(read, req) && checkedAt <= cmd.now
    requires CommandOf(read, req, cfg, checkedAt, cmd.now) == Ok(cmd) && u in NewUnlocks(cmd, id, spent)
    ensures OfferedIn(read.catalog, u, cmd.op.refType)
  {
    match req
    case Unlock(user, chapter, key) => UnlockIsOfferedIff(read.catalog, user, chapter, key, checkedAt, cfg.fee);
    case AutoUnlock(user, chapter) => AutoUnlockIsOfferedIff(read.catalog, user, chapter, checkedAt, cfg.fee);
    case BuyArc(_, _, _, _) => BundleOffers(read, req, cfg, checkedAt, cmd, id, u);
    case _ =>
  }

  lemma OfferedStays(catalog: Catalog, events: seq<Event>, u: UnlockRow, refType: RefType)
    requires events != [] && WasOffered(catalog, events[..|events| - 1], u, refType)
    ensures WasOffered(catalog, events, u, refType)
  {
    var init := events[..|events| - 1];
    var k: nat :| k <= |init| && OfferedAt(catalog, init, k, u, refType);
    MomentKeeps(catalog, events, k);
    assert OfferedAt(catalog, events, k, u, refType);
  }

  lemma BuiltOffers(catalog: Catalog, cfg: Config, events: seq<Event>, cmd: Command, id: nat, spent: int, u: UnlockRow)
    requires events != [] && Built(catalog, cfg, events[..|events| - 1], cmd) && u in NewUnlocks(cmd, id, spent)
    ensures WasOffered(catalog, events, u, cmd.op.refType)
  {
    var past := events[..|events| - 1];
    var req, asOf, checkedAt := Builder(catalog, cfg, past, cmd);
    CommandOffers(Moment(catalog, past, asOf), req, cfg, checkedAt, cmd, id, spent, u);
    MomentKeeps(catalog, events, asOf);
    assert OfferedAt(catalog, events, asOf, u, cmd.op.refType);
  }

  lemma LawfulStays(catalog: Catalog, events: seq<Event>, ledger: seq<LedgerRow>, ledger': seq<LedgerRow>,
        u: UnlockRow)
    requires events != [] && Lawful(catalog, events[..|events| - 1], ledger, u) && ledger <= ledger'
    ensures Lawful(catalog, events, ledger', u)
  {
    assert ledger'[u.ledgerId - 1] == ledger[u.ledgerId - 1];
    OfferedStays(catalog, events, u, ledger[u.ledgerId - 1].refType);
  }

  lemma NewNamesItsRow(cmd: Command, id: nat, spent: int, u: UnlockRow)
    requires ServiceShaped(cmd) && u in NewUnlocks(cmd, id, spent)
    ensures u.ledgerId == id
  {
    NewUnlocksNamed(cmd, id, spent);
  }

  lemma NewIsLawful(catalog: Catalog, cfg: Config, events: seq<Event>, cmd: Command, unlocks: seq<UnlockRow>,
        ledger: seq<LedgerRow>, id: nat, spent: int)
    requires events != [] && Built(catalog, cfg, events[..|events| - 1], cmd)
    requires unlocks == NewUnlocks(cmd, id, spent) && forall u :: u in unlocks ==> u.ledgerId == id
    requires 1 <= id <= |ledger| && ledger[id - 1].refType == cmd.op.refType
    ensures LawfulAll(catalog, events, ledger, unlocks)
  {
    forall u | u in unlocks
      ensures Lawful(catalog, events, ledger, u)
    {
      BuiltOffers(catalog, cfg, events, cmd, id, spent, u);
    }
  }

  ghost predicate LawfulAll(catalog: Catalog, events: seq<Event>, ledger: seq<LedgerRow>, unlocks: seq<UnlockRow>) {
    forall u :: u in unlocks ==> Lawful(catalog, events, ledger, u)
  }

  lemma OldStayLawful(catalog: Catalog, events: seq<Event>, ledger: seq<LedgerRow>, ledger': seq<LedgerRow>,
        unlocks: seq<UnlockRow>)
    requires events != [] && LawfulAll(catalog, events[..|events| - 1], ledger, unlocks) && ledger <= ledger'
    ensures LawfulAll(catalog, events, ledger', unlocks)
  {
    forall u | u in unlocks
      ensures Lawful(catalog, events, ledger', u)
    {
      LawfulStays(catalog, events, ledger, ledger', u);
    }
  }

  lemma AppendsLawful(catalog: Catalog, cfg: Config, events: seq<Event>, s: State, s': State, cmd: Command,
        rows: seq<LedgerRow>, spent: int)
    requires events != [] && Built(catalog, cfg, events[..|events| - 1], cmd) && ServiceShaped(cmd)
    requires LawfulAll(catalog, events[..|events| - 1], s.ledger, s.unlocks)
    requires Appends(s, s', cmd, rows, spent)
    ensures LawfulAll(catalog, events, s'.ledger, s'.unlocks)
  {
    var main := rows[|rows| - 1];
    OldStayLawful(catalog, events, s.ledger, s'.ledger, s.unlocks);
    assert s'.ledger[main.id - 1] == main;
    forall u | u in NewUnlocks(cmd, main.id, spent)
      ensures u.ledgerId == main.id
    {
      NewNamesItsRow(cmd, main.id, spent, u);
    }
    NewIsLawful(catalog, cfg, events, cmd, NewUnlocks(cmd, main.id, spent), s'.ledger, main.id, spent);
  }

  lemma SameUnlocksLawful(catalog: Catalog, events: seq<Event>, s: State, s': State)
    requires events != [] && s'.unlocks == s.unlocks && s'.ledger == s.ledger
    requires LawfulAll(catalog, events[..|events| - 1], s.ledger, s.unlocks)
    ensures LawfulAll(catalog, events, s'.ledger, s'.unlocks)
  {
    forall u | u in s'.unlocks
      ensures Lawful(catalog, events, s'.ledger, u)
    {
      assert Lawful(catalog, events[..|events| - 1], s.ledger, u);
      OfferedStays(catalog, events, u, s.ledger[u.ledgerId - 1].refType);
    }
  }

  /**
    Over every run of the service, with the catalogue edited at any time: each chapter bought was
    published at a price when the use case read it, and one bought by hand or in a bundle was
    public at the time of its unlock, or its reader subscribed to the novel.
   */
  lemma {:induction false} EarlyAccessIsKept(catalog: Catalog, cfg: Config, events: seq<Event>)
    requires Served(catalog, cfg, events)
    ensures AllLawful(catalog, events)
  {
    if events != [] {
      var init, last := events[..|events| - 1], events[|events| - 1];
      ServedPrefix(catalog, cfg, events);
      EarlyAccessIsKept(catalog, cfg, init);
      var s := Run(Initial(catalog), init);
      if last.Coin? {
        SentIsLawful(catalog, cfg, events, s, last.cmd);
      } else {
        SameUnlocksLawful(catalog, events, s, Step(s, last));
      }
    }
  }

  lemma SentIsLawful(catalog: Catalog, cfg: Config, events: seq<Event>, s: State, cmd: Command)
    requires events != [] && Served(catalog, cfg, events) && events[|events| - 1] == Coin(cmd)
    requires s == Run(Initial(catalog), events[..|events| - 1])
    requires LawfulAll(catalog, events[..|events| - 1], s.ledger, s.unlocks)
    ensures LawfulAll(catalog, events, Apply(s, cmd).state.ledger, Apply(s, cmd).state.unlocks)
  {
    var init := events[..|events| - 1];
    ServedPrefix(catalog, cfg, events);
    ServedIsServiceRun(catalog, cfg, events);
    ServedIsServiceRun(catalog, cfg, init);
    assert events[|events| - 1] in events;
    EveryRunReconciles(catalog, init);
    EveryRunConserves(catalog, init);
    var o := Apply(s, cmd);
    var plan := ApplyShape(s, cmd);
    if plan.Some? {
      assert WalletOf(s, cmd.user).Healthy();
      var rows, spent := PostedRows(s, cmd, plan.value, o);
      AppendsLawful(catalog, cfg, events, s, o.state, cmd, rows, spent);
    } else {
      SameUnlocksLawful(catalog, events, s, o.state);
    }
  }

  ghost predicate SameChapters(catalog: Catalog, events: seq<Event>) {
    forall e :: e in events && e.EditCatalog? ==>
      && e.catalog.chapters == catalog.chapters && e.catalog.subscriptions == catalog.subscriptions
  }

  lemma {:induction false} ChaptersStay(catalog: Catalog, events: seq<Event>)
    requires SameChapters(catalog, events)
    ensures var now := Run(Initial(catalog), events).catalog;
            now.chapters == catalog.chapters && now.subscriptions == catalog.subscriptions
  {
    if events != [] {
      var init, last := events[..|events| - 1], events[|events| - 1];
      assert last in events;
      ChaptersStay(catalog, init);
      if last.Coin? {
        var plan := ApplyShape(Run(Initial(catalog), init), last.cmd);
      }
    }
  }

  /** Not before its public time, unless the reader subscribes to the novel. */
  predicate NotEarly(cat: Catalog, u: UnlockRow)
    requires u.chapter in cat.chapters
  {
    var row := cat.chapters[u.chapter];
    (u.user, row.novel) in cat.subscriptions || row.publicAt.None? || row.publicAt.value <= u.unlockedAt
  }

  lemma OfferedIsNotEarly(catalog: Catalog, events: seq<Event>, u: UnlockRow, refType: RefType)
    requires SameChapters(catalog, events) && WasOffered(catalog, events, u, refType)
    ensures u.chapter in catalog.chapters
    ensures refType != RefAutoUnlock ==> NotEarly(catalog, u)
  {
    var k: nat :| k <= |events| && OfferedAt(catalog, events, k, u, refType);
    ChaptersStay(catalog, events[..k]);
  }

  /** While chapters and subscriptions stay as they are, a reader without a subscription buys nothing early. */
  lemma NothingIsBoughtEarly(catalog: Catalog, cfg: Config, events: seq<Event>, u: UnlockRow, row: LedgerRow)
    requires Served(catalog, cfg, events) && SameChapters(catalog, events)
    requires var s := Run(Initial(catalog), events);
             u in s.unlocks && row in s.ledger && u.ledgerId == row.id
    ensures u.chapter in catalog.chapters
    ensures row.refType == RefChapterUnlock || row.refType == RefArcBundle ==> NotEarly(catalog, u)
  {
    EarlyAccessIsKept(catalog, cfg, events);
    EveryRunReconciles(catalog, events);
    var ledger := Run(Initial(catalog), events).ledger;
    assert Lawful(catalog, events, ledger, u);
    var i :| 0 <= i < |ledger| && ledger[i] == row;
    OfferedIsNotEarly(catalog, events, u, ledger[u.ledgerId - 1].refType);
  }

  // ------------------------------------------- every purchase is worth its pack

  predicate IsCredit(row: LedgerRow, p: int) {
    row.kind == Topup && row.refType == RefPurchase && row.refId == Some(p)
  }

  /** The row credits what the pack held at that moment. */
  predicate CreditsPack(cat: Catalog, pack: int, row: LedgerRow) {
    && pack in cat.packs
    && row.delta == cat.packs[pack].coins && row.bonusDelta == cat.packs[pack].bonusCoins
  }

  ghost predicate CreditsPackAt(catalog: Catalog, events: seq<Event>, k: nat, pack: int, row: LedgerRow)
    requires k <= |events|
  {
    CreditsPack(Moment(catalog, events, k).catalog, pack, row)
  }

  ghost predicate CreditedPack(catalog: Catalog, events: seq<Event>, pack: int, row: LedgerRow) {
    exists k: nat :: k <= |events| && CreditsPackAt(catalog, events, k, pack, row)
  }

  /** The row's purchase exists, belongs to the row's user, and its pack is what the row credits. */
  ghost predicate Honest(catalog: Catalog, events: seq<Event>, purchases: seq<PurchaseRow>, row: LedgerRow) {
    row.kind == Topup && row.refType == RefPurchase ==>
      && row.refId.Some? && 1 <= row.refId.value <= |purchases|
      && purchases[row.refId.value - 1].user == row.user
      && CreditedPack(catalog, events, purchases[row.refId.value - 1].pack, row)
  }

  ghost predicate AllHonest(catalog: Catalog, events: seq<Event>, s: State) {
    && (forall row :: row in s.ledger ==> Honest(catalog, events, s.purchases, row))
    && (forall row :: row in s.purchases && row.status == Succeeded ==> row.ledgerId.Some?)
  }

  lemma HonestStays(catalog: Catalog, events: seq<Event>, s: State, s': State, row: LedgerRow)
    requires events != [] && Honest(catalog, events[..|events| - 1], s.purchases, row) && PurchasesAdvance(s, s')
    ensures Honest(catalog, events, s'.purchases, row)
  {
    if row.kind == Topup && row.refType == RefPurchase {
      var pack := s.purchases[row.refId.value - 1].pack;
      assert s'.purchases[row.refId.value - 1].pack == pack;
      var k: nat :| k <= |events[..|events| - 1]| && CreditsPackAt(catalog, events[..|events| - 1], k, pack, row);
      MomentKeeps(catalog, events, k);
      assert CreditsPackAt(catalog, events, k, pack, row);
    }
  }

  /** What an applied top-up's row says. */
  lemma AppliedTopup(s: State, cmd: Command)
    requires Applied(s, cmd) && WalletOf(s, cmd.user).Healthy() && cmd.op.kind == Topup
    ensures var row := Apply(s, cmd).state.ledger[|Apply(s, cmd).state.ledger| - 1];
            row.user == cmd.user && row.delta == cmd.op.coins && row.bonusDelta == cmd.op.bonusCoins
    ensures |Apply(s, cmd).state.ledger| > |s.ledger|
  {
    AppliedRecords(s, cmd);
    var plan := ApplyShape(s, cmd);
    PostedTables(s, cmd, plan.value, Apply(s, cmd));
    PostedReceipt(s, cmd, plan.value, Apply(s, cmd));
  }

  /** A purchase known at an earlier moment has the same owner and pack at the end. */
  lemma PurchasesSince(catalog: Catalog, events: seq<Event>, k: nat)
    requires k <= |events|
    ensures PurchasesAdvance(Moment(catalog, events, k), Run(Initial(catalog), events))
  {
    assert events == events[..k] + events[k..];
    RunAppend(Initial(catalog), events[..k], events[k..]);
    RunAdvancesPurchases(Moment(catalog, events, k), events[k..]);
  }

  /** Only the completion of a purchase tops a wallet up. */
  lemma TopupIsCompletion(read: State, req: Request, cfg: Config, checkedAt: Instant, cmd: Command) returns (p: int)
    requires CommandOf(read, req, cfg, checkedAt, cmd.now) == Ok(cmd) && cmd.op.kind == Topup
    ensures 1 <= p <= |read.purchases| && read.purchases[p - 1].user == cmd.user
    ensures read.purchases[p - 1].pack in read.catalog.packs
    ensures read.catalog.packs[read.purchases[p - 1].pack] == PackRow(cmd.op.coins, cmd.op.bonusCoins)
    ensures cmd.op.refType == RefPurchase && cmd.op.refId == Some(p)
  {
    CompletionIsOfferedIff(read, cmd.user, req.purchase, cfg.bonusTTL, req.key, cmd.now);
    p := req.purchase;
  }

  lemma ReadPackIsHonest(catalog: Catalog, events: seq<Event>, k: nat, read: State, s: State, p: int, row: LedgerRow)
    requires k <= |events| && read == Moment(catalog, events, k) && PurchasesAdvance(read, s)
    requires 1 <= p <= |read.purchases| && read.purchases[p - 1].user == row.user && row.refId == Some(p)
    requires CreditsPack(read.catalog, read.purchases[p - 1].pack, row)
    ensures Honest(catalog, events, s.purchases, row)
  {
    assert s.purchases[p - 1].pack == read.purchases[p - 1].pack;
    assert CreditsPackAt(catalog, events, k, s.purchases[p - 1].pack, row);
  }

  lemma CompletionIsHonest(catalog: Catalog, cfg: Config, events: seq<Event>, s: State, cmd: Command, row: LedgerRow)
    requires events != [] && cmd.op.kind == Topup && Built(catalog, cfg, events[..|events| - 1], cmd)
    requires s == Run(Initial(catalog), events[..|events| - 1])
    requires row.user == cmd.user && row.refType == cmd.op.refType && row.refId == cmd.op.refId
    requires row.delta == cmd.op.coins && row.bonusDelta == cmd.op.bonusCoins
    ensures Honest(catalog, events, s.purchases, row)
  {
    var past := events[..|events| - 1];
    var req, asOf, checkedAt := Builder(catalog, cfg, past, cmd);
    PurchasesSince(catalog, past, asOf);
    MomentKeeps(catalog, events, asOf);
    var read := Moment(catalog, past, asOf);
    var p := TopupIsCompletion(read, req, cfg, checkedAt, cmd);
    ReadPackIsHonest(catalog, events, asOf, read, s, p, row);
  }

  lemma AppendsHonest(catalog: Catalog, events: seq<Event>, s: State, s': State, cmd: Command, rows: seq<LedgerRow>,
        spent: int)
    requires events != [] && AllHonest(catalog, events[..|events| - 1], s)
    requires Appends(s, s', cmd, rows, spent) && CompletesPurchase(s, s', cmd, |s.ledger| + |rows|)
    requires rows[|rows| - 1].kind == Topup ==> Honest(catalog, events, s.purchases, rows[|rows| - 1])
    ensures AllHonest(catalog, events, s')
  {
    CompletionAdvances(s, s', cmd, |s.ledger| + |rows|);
    forall row | row in s'.ledger
      ensures Honest(catalog, events, s'.purchases, row)
    {
      if row in s.ledger {
        HonestStays(catalog, events, s, s', row);
      } else if row.kind == Topup {
        assert row == rows[|rows| - 1];
      }
    }
  }

  lemma OthersHonest(catalog: Catalog, events: seq<Event>, s: State, s': State)
    requires events != [] && AllHonest(catalog, events[..|events| - 1], s)
    requires s'.ledger == s.ledger && PurchasesAdvance(s, s')
    requires forall row :: row in s'.purchases && row.status == Succeeded ==> row in s.purchases
    ensures AllHonest(catalog, events, s')
  {
    forall row | row in s'.ledger
      ensures Honest(catalog, events, s'.purchases, row)
    {
      HonestStays(catalog, events, s, s', row);
    }
  }

  /** What a sent command did to ledger and purchases. */
  lemma SentRows(s: State, cmd: Command, plan: Plan) returns (rows: seq<LedgerRow>, spent: int)
    requires Posted(s, cmd, plan, Apply(s, cmd)) && WalletOf(s, cmd.user).Healthy() && UniqueUnlocks(s.unlocks)
    ensures Appends(s, Apply(s, cmd).state, cmd, rows, spent)
    ensures CompletesPurchase(s, Apply(s, cmd).state, cmd, |s.ledger| + |rows|)
    ensures cmd.op.kind == Topup ==>
              rows[|rows| - 1].delta == cmd.op.coins && rows[|rows| - 1].bonusDelta == cmd.op.bonusCoins
  {
    var o := Apply(s, cmd);
    rows, spent := PostedRows(s, cmd, plan, o);
    if cmd.op.kind == Topup {
      PostedReceipt(s, cmd, plan, o);
      AppliedTopup(s, cmd);
    }
  }

  lemma PostedIsHonest(catalog: Catalog, cfg: Config, events: seq<Event>, s: State, cmd: Command, plan: Plan)
    requires events != [] && Built(catalog, cfg, events[..|events| - 1], cmd)
    requires s == Run(Initial(catalog), events[..|events| - 1])
    requires Posted(s, cmd, plan, Apply(s, cmd)) && WalletOf(s, cmd.user).Healthy() && UniqueUnlocks(s.unlocks)
    requires AllHonest(catalog, events[..|events| - 1], s)
    ensures AllHonest(catalog, events, Apply(s, cmd).state)
  {
    var rows, spent := SentRows(s, cmd, plan);
    if cmd.op.kind == Topup {
      CompletionIsHonest(catalog, cfg, events, s, cmd, rows[|rows| - 1]);
    }
    AppendsHonest(catalog, events, s, Apply(s, cmd).state, cmd, rows, spent);
  }

  lemma SentIsHonest(catalog: Catalog, cfg: Config, events: seq<Event>, s: State, cmd: Command)
    requires events != [] && Served(catalog, cfg, events) && events[|events| - 1] == Coin(cmd)
    requires s == Run(Initial(catalog), events[..|events| - 1])
    requires AllHonest(catalog, events[..|events| - 1], s)
    ensures AllHonest(catalog, events, Apply(s, cmd).state)
  {
    var init := events[..|events| - 1];
    ServedPrefix(catalog, cfg, events);
    ServedIsServiceRun(catalog, cfg, init);
    EveryRunReconciles(catalog, init);
    EveryRunConserves(catalog, init);
    var plan := ApplyShape(s, cmd);
    if plan.Some? {
      assert WalletOf(s, cmd.user).Healthy();
      PostedIsHonest(catalog, cfg, events, s, cmd, plan.value);
    } else {
      CommandAdvancesPurchases(s, cmd);
      OthersHonest(catalog, events, s, Apply(s, cmd).state);
    }
  }

  /** Over every run of the service, each credit is the pack of its purchase, in the wallet of its owner. */
  lemma {:induction false} CreditsAreHonest(catalog: Catalog, cfg: Config, events: seq<Event>)
    requires Served(catalog, cfg, events)
    ensures AllHonest(catalog, events, Run(Initial(catalog), events))
  {
    if events != [] {
      var init, last := events[..|events| - 1], events[|events| - 1];
      ServedPrefix(catalog, cfg, events);
      CreditsAreHonest(catalog, cfg, init);
      var s := Run(Initial(catalog), init);
      if last.Coin? {
        SentIsHonest(catalog, cfg, events, s, last.cmd);
      } else {
        StepAdvancesPurchases(s, last);
        OtherKeepsSuccesses(s, last);
        OthersHonest(catalog, events, s, Step(s, last));
      }
    }
  }

  lemma OtherKeepsSuccesses(s: State, e: Event)
    requires !e.Coin?
    ensures var s' := Step(s, e);
            s'.ledger == s.ledger && forall row :: row in s'.purchases && row.status == Succeeded ==> row in s.purchases
  {
  }

  /** The purchased coins that the ledger says a purchase brought. */
  function CoinsBought(ledger: seq<LedgerRow>, p: int): int {
    if ledger == [] then 0
    else
      var last := ledger[|ledger| - 1];
      CoinsBought(ledger[..|ledger| - 1], p) + if IsCredit(last, p) then last.delta else 0
  }

  /** And the bonus coins. */
  function BonusBought(ledger: seq<LedgerRow>, p: int): int {
    if ledger == [] then 0
    else
      var last := ledger[|ledger| - 1];
      BonusBought(ledger[..|ledger| - 1], p) + if IsCredit(last, p) then last.bonusDelta else 0
  }

  /** The sums over a purchase that was credited at most once. */
  lemma {:induction false} SumsOfCredits(ledger: seq<LedgerRow>, p: int)
    requires Numbered(ledger) && |CreditsFor(ledger, p)| <= 1
    ensures CreditsFor(ledger, p) == [] ==> CoinsBought(ledger, p) == 0 && BonusBought(ledger, p) == 0
    ensures CreditsFor(ledger, p) != [] ==>
              var id := CreditsFor(ledger, p)[0];
              && 1 <= id <= |ledger| && IsCredit(ledger[id - 1], p)
              && CoinsBought(ledger, p) == ledger[id - 1].delta && BonusBought(ledger, p) == ledger[id - 1].bonusDelta
  {
    if ledger != [] {
      SumsOfCredits(ledger[..|ledger| - 1], p);
    }
  }

  /** Nothing unless the purchase succeeded; then the coins and bonus coins of its pack, as some moment listed it. */
  ghost predicate BroughtItsPack(catalog: Catalog, events: seq<Event>, s: State, p: int) {
    if 1 <= p <= |s.purchases| && s.purchases[p - 1].status == Succeeded
    then exists k: nat :: k <= |events| && BroughtPackAt(catalog, events, k, s, p)
    else CoinsBought(s.ledger, p) == 0 && BonusBought(s.ledger, p) == 0
  }

  ghost predicate BroughtPackAt(catalog: Catalog, events: seq<Event>, k: nat, s: State, p: int)
    requires k <= |events| && 1 <= p <= |s.purchases|
  {
    var packs := Moment(catalog, events, k).catalog.packs;
    && s.purchases[p - 1].pack in packs
    && packs[s.purchases[p - 1].pack] == PackRow(CoinsBought(s.ledger, p), BonusBought(s.ledger, p))
  }

  lemma CreditRowIsThePack(catalog: Catalog, events: seq<Event>, s: State, p: int, row: LedgerRow)
    requires AllHonest(catalog, events, s) && row in s.ledger && IsCredit(row, p)
    requires CoinsBought(s.ledger, p) == row.delta && BonusBought(s.ledger, p) == row.bonusDelta
    ensures 1 <= p <= |s.purchases| && exists k: nat :: k <= |events| && BroughtPackAt(catalog, events, k, s, p)
  {
    assert Honest(catalog, events, s.purchases, row);
    var k: nat :| k <= |events| && CreditsPackAt(catalog, events, k, s.purchases[p - 1].pack, row);
    assert BroughtPackAt(catalog, events, k, s, p);
  }

  lemma SettledPurchase(catalog: Catalog, events: seq<Event>, s: State, p: int)
    requires Numbered(s.ledger) && Settled(s) && AllHonest(catalog, events, s)
    ensures BroughtItsPack(catalog, events, s, p)
  {
    assert CreditsFor(s.ledger, p) == NamedCredit(s.purchases, p);
    SumsOfCredits(s.ledger, p);
    if 1 <= p <= |s.purchases| && s.purchases[p - 1].status == Succeeded {
      assert s.purchases[p - 1] in s.purchases;
      CreditRowIsThePack(catalog, events, s, p, s.ledger[CreditsFor(s.ledger, p)[0] - 1]);
    }
  }

  ghost predicate OwnerIsCredited(s: State, p: int) {
    forall row :: row in s.ledger && IsCredit(row, p) ==>
      1 <= p <= |s.purchases| && row.user == s.purchases[p - 1].user
  }

  lemma HonestCreditsTheOwner(catalog: Catalog, events: seq<Event>, s: State, p: int)
    requires AllHonest(catalog, events, s)
    ensures OwnerIsCredited(s, p)
  {
    forall row | row in s.ledger && IsCredit(row, p)
      ensures 1 <= p <= |s.purchases| && row.user == s.purchases[p - 1].user
    {
      assert Honest(catalog, events, s.purchases, row);
    }
  }

  /**
    Over every run of the service: what the ledger credits to a purchase sums to its pack, when the
    purchase has succeeded, and to nothing otherwise, and only its owner's wallet was credited.
   */
  lemma PurchasesBringTheirPacks(catalog: Catalog, cfg: Config, events: seq<Event>, p: int)
    requires Served(catalog, cfg, events)
    ensures BroughtItsPack(catalog, events, Run(Initial(catalog), events), p)
    ensures OwnerIsCredited(Run(Initial(catalog), events), p)
  {
    var s := Run(Initial(catalog), events);
    ServedIsServiceRun(catalog, cfg, events);
    EveryRunConserves(catalog, events);
    assert Numbered(s.ledger);
    CreditsAreHonest(catalog, cfg, events);
    SettledPurchase(catalog, events, s, p);
    HonestCreditsTheOwner(catalog, events, s, p);
  }

  ghost predicate SamePacks(catalog: Catalog, events: seq<Event>) {
    forall e :: e in events && e.EditCatalog? ==> e.catalog.packs == catalog.packs
  }

  lemma {:induction false} PacksStay(catalog: Catalog, events: seq<Event>)
    requires SamePacks(catalog, events)
    ensures Run(Initial(catalog), events).catalog.packs == catalog.packs
  {
    if events != [] {
      var init, last := events[..|events| - 1], events[|events| - 1];
      assert last in events;
      PacksStay(catalog, init);
      if last.Coin? {
        var plan := ApplyShape(Run(Initial(catalog), init), last.cmd);
      }
    }
  }

  /** With packs that are never edited, the sums are the pack's two numbers. */
  lemma FixedPacksAreBrought(catalog: Catalog, cfg: Config, events: seq<Event>, p: int)
    requires Served(catalog, cfg, events) && SamePacks(catalog, events)
    requires 1 <= p <= |Run(Initial(catalog), events).purchases|
    requires Run(Initial(catalog), events).purchases[p - 1].status == Succeeded
    ensures var s := Run(Initial(catalog), events);
            && s.purchases[p - 1].pack in catalog.packs
            && CoinsBought(s.ledger, p) == catalog.packs[s.purchases[p - 1].pack].coins
            && BonusBought(s.ledger, p) == catalog.packs[s.purchases[p - 1].pack].bonusCoins
  {
    var s := Run(Initial(catalog), events);
    PurchasesBringTheirPacks(catalog, cfg, events, p);
    var k: nat :| k <= |events| && BroughtPackAt(catalog, events, k, s, p);
    PacksStay(catalog, events[..k]);
  }
}
