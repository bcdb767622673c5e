/**
  What the wallet use cases promise their callers, said on the rows of the tables: what is offered
  to whom, which error answers anything else, and what an accepted call changes.
 */
module UseCases {
  import opened Prelude
  import opened Coins
  import opened Store
  import opened LedgerTotals
  import opened Conservation
  import opened Postings
  import opened Service
  import Bundle
  import Earnings

  // ---------------------------------------------------------- what is offered

  /** The chapter's row is published, in a novel that exists. */
  predicate Readable(cat: Catalog, chapter: ChapterId) {
    && chapter in cat.chapters && cat.chapters[chapter].status == Published
    && cat.chapters[chapter].novel in cat.novels
  }

  /** The early-access window is over, or the reader subscribes to the novel. */
  predicate Open(cat: Catalog, user: UserId, chapter: ChapterId, at: Instant)
    requires chapter in cat.chapters
  {
    match cat.chapters[chapter].publicAt
    case None => true
    case Some(publicAt) => publicAt <= at || (user != 0 && (user, cat.chapters[chapter].novel) in cat.subscriptions)
  }

  /** The chapter's own translator, else its novel's. */
  function WriterOf(cat: Catalog, chapter: ChapterId): Option<UserId>
    requires Readable(cat, chapter)
  {
    match cat.chapters[chapter].translator
    case Some(writer) => Some(writer)
    case None =>
      match cat.novels[cat.chapters[chapter].novel].translator
      case Some(writer) => Some(writer)
      case None => None
  }

  /** The writer to credit when a reader buys the chapter: nobody for their own. */
  function PayeeOf(cat: Catalog, chapter: ChapterId, buyer: UserId): Option<UserId>
    requires Readable(cat, chapter)
  {
    if WriterOf(cat, chapter) == Some(buyer) then None else WriterOf(cat, chapter)
  }

  /** Who may buy a chapter by hand, and the error for everybody else, in the order they are found. */
  lemma UnlockIsOfferedIff(cat: Catalog, user: UserId, chapter: ChapterId, key: string, now: Instant, fee: int)
    ensures var r := UnlockChapter(cat, user, chapter, key, now, fee);
            && (r.Ok? <==> Readable(cat, chapter) && cat.chapters[chapter].price > 0 && Open(cat, user, chapter, now))
            && (r.Err? ==> r.error ==
                           if !Readable(cat, chapter) then NotFound
                           else if cat.chapters[chapter].price == 0 then ChapterNotForSale
                           else EarlyAccessOnly)
  {
  }

  /** The fan-out buys inside the window too: its candidates are the subscribers. */
  lemma AutoUnlockIsOfferedIff(cat: Catalog, user: UserId, chapter: ChapterId, now: Instant, fee: int)
    ensures var r := AutoUnlockChapter(cat, user, chapter, now, fee);
            && (r.Ok? <==> Readable(cat, chapter) && cat.chapters[chapter].price > 0)
            && (r.Err? ==> r.error == if Readable(cat, chapter) then ChapterNotForSale else NotFound)
  {
  }

  lemma TipIsOfferedIff(cat: Catalog, user: UserId, chapter: ChapterId, coins: int, key: string, now: Instant,
        fee: int)
    ensures var r := TipChapter(cat, user, chapter, coins, key, now, fee);
            && (r.Ok? <==>
                  && 1 <= coins <= 1000 && Readable(cat, chapter)
                  && cat.novels[cat.chapters[chapter].novel].tipsEnabled
                  && WriterOf(cat, chapter).Some? && WriterOf(cat, chapter).value != user)
            && (r.Err? ==> r.error ==
                           if !(1 <= coins <= 1000) then InvalidAmount
                           else if !Readable(cat, chapter) then NotFound
                           else if !cat.novels[cat.chapters[chapter].novel].tipsEnabled then TipsDisabled
                           else if WriterOf(cat, chapter).None? then NotFound
                           else CannotTipSelf)
  {
  }

  lemma CompletionIsOfferedIff(s: State, user: UserId, purchase: int, ttl: int, key: string, now: Instant)
    ensures var r := CompletePurchase(s, user, purchase, ttl, key, now);
            var theirs := 1 <= purchase <= |s.purchases| && s.purchases[purchase - 1].user == user;
            && (r.Ok? <==> theirs && s.purchases[purchase - 1].pack in s.catalog.packs)
            && (r.Err? ==> r.error == if theirs then PackNotFound else NotFound)
  {
  }

  /** Public at 100, and now it is 50: only a subscriber may buy. */
  lemma EarlyAccessIsReserved(cat: Catalog, key: string, fee: int)
    requires cat == Catalog(map[1 := ChapterRow(10, 1, Published, 5, None, Some(100))],
                            map[10 := NovelRow(None, false, false)], map[], map[], {(8, 10)})
    ensures UnlockChapter(cat, 7, 1, key, 50, fee) == Err(EarlyAccessOnly)
    ensures UnlockChapter(cat, 8, 1, key, 50, fee).Ok? && UnlockChapter(cat, 7, 1, key, 100, fee).Ok?
  {
    UnlockIsOfferedIff(cat, 7, 1, key, 50, fee);
  }

  // ------------------------------------------------------- what a bundle holds

  /** What the reader still needs of an arc and may buy, read off the rows. */
  predicate Needed(s: State, user: UserId, arc: ArcRow, id: ChapterId, at: Instant) {
    && Readable(s.catalog, id)
    && s.catalog.chapters[id].novel == arc.novel && s.catalog.chapters[id].price > 0
    && arc.fromNo <= s.catalog.chapters[id].no <= arc.toNo
    && !Owns(s.unlocks, user, id) && Open(s.catalog, user, id, at)
  }

  ghost predicate Ascending(chapters: seq<ChapterSale>) {
    forall i, j :: 0 <= i < j < |chapters| ==> chapters[i].no < chapters[j].no
  }

  lemma {:induction false} WantedInOrder(s: State, user: UserId, now: Instant, listing: seq<ChapterSale>)
    requires Ascending(listing)
    ensures Ascending(WantedOf(s, user, now, listing))
  {
    if listing != [] {
      var n := |listing| - 1;
      WantedInOrder(s, user, now, listing[..n]);
      var earlier := WantedOf(s, user, now, listing[..n]);
      forall i | 0 <= i < |earlier|
        ensures earlier[i].no < listing[n].no
      {
        assert earlier[i] in earlier;
        var k :| 0 <= k < n && listing[k] == earlier[i];
      }
    }
  }

  lemma SaleIsWanted(s: State, user: UserId, arc: ArcRow, now: Instant, listing: seq<ChapterSale>, c: ChapterSale)
    requires ArcListing(s.catalog, arc, listing) && c in listing
    ensures Wanted(s, user, now, c) <==> Needed(s, user, arc, c.chapter, now)
  {
  }

  /** The chapters a bundle is quoted for: exactly those needed, each once, in chapter order. */
  lemma WantedIsNeeded(s: State, user: UserId, arc: ArcRow, listing: seq<ChapterSale>, now: Instant)
    requires ArcListing(s.catalog, arc, listing)
    ensures var w := WantedOf(s, user, now, listing);
            && (forall id :: (exists c :: c in w && c.chapter == id) <==> Needed(s, user, arc, id, now))
            && Ascending(w)
  {
    var w := WantedOf(s, user, now, listing);
    WantedInOrder(s, user, now, listing);
    forall id
      ensures (exists c :: c in w && c.chapter == id) <==> Needed(s, user, arc, id, now)
    {
      if Needed(s, user, arc, id, now) {
        var i :| 0 <= i < |listing| && listing[i].chapter == id;
        SaleIsWanted(s, user, arc, now, listing, listing[i]);
        assert listing[i] in w;
      }
      if c :| c in w && c.chapter == id {
        SaleIsWanted(s, user, arc, now, listing, c);
      }
    }
  }

  /** A quoted item is the chapter's own price and the writer to credit, with the writer's part of the share. */
  predicate ItemFor(cat: Catalog, user: UserId, fee: int, item: Item) {
    && Readable(cat, item.chapter)
    && item.listPrice == cat.chapters[item.chapter].price
    && match PayeeOf(cat, item.chapter, user)
       case None => item.writer == 0 && item.net == 0
       case Some(writer) => item.writer == writer != 0 && item.net == NetCoins(item.coins, fee)
  }

  lemma SaleItem(cat: Catalog, user: UserId, fee: int, c: ChapterSale, coins: int)
    requires ChapterForSale(cat, c.chapter) == Ok(c)
    ensures ItemFor(cat, user, fee, BundleItem(user, fee, c, coins))
  {
  }

  /** Whether an arc is quoted at all, and the error if not. */
  lemma ArcIsQuotedIff(s: State, user: UserId, arc: int, listing: seq<ChapterSale>, now: Instant, fee: int)
    requires arc in s.catalog.arcs ==> ArcListing(s.catalog, s.catalog.arcs[arc], listing)
    ensures var r := QuoteArc(s, user, arc, listing, now, fee);
            var known := arc in s.catalog.arcs && s.catalog.arcs[arc].novel in s.catalog.novels;
            && (r.Ok? <==> known && s.catalog.novels[s.catalog.arcs[arc].novel].sellByArc
                           && exists id :: Needed(s, user, s.catalog.arcs[arc], id, now))
            && (r.Err? ==> r.error ==
                           if !known then NotFound
                           else if !s.catalog.novels[s.catalog.arcs[arc].novel].sellByArc then ArcNotForSale
                           else ArcAlreadyOwned)
  {
    if arc in s.catalog.arcs {
      var w := WantedOf(s, user, now, listing);
      WantedIsNeeded(s, user, s.catalog.arcs[arc], listing, now);
      Bundle.QuoteIsRefusedIff(Prices(w), Bundle.ARC_BUNDLE_DISCOUNT_PERCENT);
      if w == [] {
        assert forall id :: !Needed(s, user, s.catalog.arcs[arc], id, now);
      } else {
        assert w[0] in w && Prices(w)[0] > 0;
        assert Needed(s, user, s.catalog.arcs[arc], w[0].chapter, now);
      }
      forall i | 0 <= i < |w|
        ensures Prices(w)[i] > 0
      {
        assert w[i] in w;
      }
    }
  }

  /** What a quote holds: the chapters needed, in order, at fifteen percent off rounded up to a whole coin. */
  lemma ArcQuoteIsExact(s: State, user: UserId, arc: int, listing: seq<ChapterSale>, now: Instant, fee: int)
    requires arc in s.catalog.arcs && ArcListing(s.catalog, s.catalog.arcs[arc], listing)
    requires QuoteArc(s, user, arc, listing, now, fee).Ok?
    ensures var q := QuoteArc(s, user, arc, listing, now, fee).value;
            && Ascending(q.chapters) && |q.items| == |q.chapters| == |q.quote.perChapter|
            && (forall id :: id in ItemIds(q.items) <==> Needed(s, user, s.catalog.arcs[arc], id, now))
            && (forall i :: 0 <= i < |q.items| ==>
                  && ItemFor(s.catalog, user, fee, q.items[i]) && q.items[i].chapter == q.chapters[i].chapter
                  && s.catalog.chapters[q.items[i].chapter].no == q.chapters[i].no
                  && q.items[i].coins == q.quote.perChapter[i])
            && q.quote.gross * 85 <= q.quote.total * 100 < q.quote.gross * 85 + 100
            && q.quote.gross == Sum(seq(|q.items|, i requires 0 <= i < |q.items| => q.items[i].listPrice))
            && Allocated(q.items) == q.quote.total > 0
  {
    var q := QuoteArc(s, user, arc, listing, now, fee).value;
    WantedIsNeeded(s, user, s.catalog.arcs[arc], listing, now);
    QuotedItemsFit(s, user, arc, listing, now, fee);
    Bundle.QuoteIsExact(Prices(q.chapters), Bundle.ARC_BUNDLE_DISCOUNT_PERCENT);
    forall i | 0 <= i < |q.items|
      ensures ItemFor(s.catalog, user, fee, q.items[i]) && q.items[i].chapter == q.chapters[i].chapter
      ensures s.catalog.chapters[q.items[i].chapter].no == q.chapters[i].no
    {
      assert q.chapters[i] in q.chapters;
      SaleItem(s.catalog, user, fee, q.chapters[i], q.quote.perChapter[i]);
    }
    ItemsAreChapters(q.items, q.chapters);
  }

  lemma ItemsAreChapters(items: seq<Item>, chapters: seq<ChapterSale>)
    requires |items| == |chapters| && forall i :: 0 <= i < |items| ==> items[i].chapter == chapters[i].chapter
    ensures forall id :: id in ItemIds(items) <==> exists c :: c in chapters && c.chapter == id
  {
    var ids := ItemIds(items);
    forall id
      ensures id in ids <==> exists c :: c in chapters && c.chapter == id
    {
      if id in ids {
        var i :| 0 <= i < |items| && ids[i] == id;
        assert chapters[i] in chapters;
      }
      if c :| c in chapters && c.chapter == id {
        var i :| 0 <= i < |chapters| && chapters[i] == c;
        assert ids[i] in ids;
      }
    }
  }

  // ---------------------------------------------- what an accepted call changes

  /** The rows an applied command writes beside the ledger, all naming its last row. */
  lemma AppliedChild(s: State, cmd: Command, spent: int)
    requires Applied(s, cmd) && WalletOf(s, cmd.user).Healthy()
    requires cmd.op.kind == SpendUnlock || cmd.op.kind == Tip
    requires spent == cmd.op.amount
    ensures var s' := Apply(s, cmd).state;
            && CheckChild(s, cmd) == None
            && s'.unlocks == s.unlocks + NewUnlocks(cmd, |s'.ledger|, spent)
            && s'.earnings == s.earnings + NewEarnings(cmd, |s'.ledger|, spent)
            && (!cmd.child.PurchaseComplete? ==> s'.purchases == s.purchases)
  {
    var o := Apply(s, cmd);
    var plan := ApplyShape(s, cmd);
    PostedTables(s, cmd, plan.value, o);
    var posted, ledgerId := PostedChild(s, cmd, plan.value, o);
    PlanDebits(WalletOf(s, cmd.user), cmd, plan.value);
    ChildRows(posted, cmd, ledgerId, plan.value.entry);
  }

  /** The earning of one sale or tip, when there is a writer to credit. */
  function EarningFor(payee: Option<UserId>, chapter: ChapterId, ledgerId: nat, gross: int, fee: int,
        kind: EarningKind, at: Instant): seq<EarningRow> {
    match payee
    case None => []
    case Some(writer) => [EarningRow(writer, chapter, ledgerId, gross, NetCoins(gross, fee), kind, at)]
  }

  /** One chapter changed hands: the reader's usable coins fell by its price and the rows say so. */
  predicate SellsChapter(cat: Catalog, s: State, s': State, user: UserId, chapter: ChapterId, fee: int, now: Instant)
    requires Readable(cat, chapter)
  {
    var price, before, after := cat.chapters[chapter].price, WalletOf(s, user), WalletOf(s', user);
    && after.paid + after.EffectiveBonus(now) == before.paid + before.EffectiveBonus(now) - price
    && !Owns(s.unlocks, user, chapter) && s'.purchases == s.purchases
    && s'.unlocks == s.unlocks + [UnlockRow(user, chapter, price, |s'.ledger|, now)]
    && s'.earnings == s.earnings
                      + EarningFor(PayeeOf(cat, chapter, user), chapter, |s'.ledger|, price, fee, EarningUnlock, now)
  }

  lemma UnlockSells(read: Catalog, user: UserId, chapter: ChapterId, key: string, checkedAt: Instant, fee: int,
        s: State, cmd: Command, now: Instant)
    requires UnlockChapter(read, user, chapter, key, checkedAt, fee).Ok?
    requires cmd == UnlockChapter(read, user, chapter, key, checkedAt, fee).value.(now := now)
    requires Applied(s, cmd) && WalletOf(s, user).Healthy()
    ensures Readable(read, chapter) && SellsChapter(read, s, Apply(s, cmd).state, user, chapter, fee, now)
  {
    AppliedMoves(s, cmd, now);
    AppliedChild(s, cmd, read.chapters[chapter].price);
  }

  lemma AutoUnlockSells(read: Catalog, user: UserId, chapter: ChapterId, checkedAt: Instant, fee: int, s: State,
        cmd: Command, now: Instant)
    requires AutoUnlockChapter(read, user, chapter, checkedAt, fee).Ok?
    requires cmd == AutoUnlockChapter(read, user, chapter, checkedAt, fee).value.(now := now)
    requires Applied(s, cmd) && WalletOf(s, user).Healthy()
    ensures Readable(read, chapter) && SellsChapter(read, s, Apply(s, cmd).state, user, chapter, fee, now)
  {
    AppliedMoves(s, cmd, now);
    AppliedChild(s, cmd, read.chapters[chapter].price);
  }

  /** A tip takes purchased coins only, credits the chapter's writer and unlocks nothing. */
  lemma TipPays(read: Catalog, user: UserId, chapter: ChapterId, coins: int, key: string, checkedAt: Instant, fee: int,
        s: State, cmd: Command, now: Instant, later: Instant)
    requires TipChapter(read, user, chapter, coins, key, checkedAt, fee).Ok?
    requires cmd == TipChapter(read, user, chapter, coins, key, checkedAt, fee).value.(now := now)
    requires Applied(s, cmd) && WalletOf(s, user).Healthy() && now <= later
    ensures Readable(read, chapter)
    ensures var s' := Apply(s, cmd).state;
            && WalletOf(s', user).paid == WalletOf(s, user).paid - coins
            && WalletOf(s', user).EffectiveBonus(later) == WalletOf(s, user).EffectiveBonus(later)
            && s'.unlocks == s.unlocks && s'.purchases == s.purchases
            && s'.earnings == s.earnings
                              + EarningFor(WriterOf(read, chapter), chapter, |s'.ledger|, coins, fee, EarningTip, now)
  {
    AppliedMoves(s, cmd, later);
    AppliedChild(s, cmd, coins);
  }

  /** A correction moves both sides by what the administrator entered, and the row says who and why. */
  lemma AdjustCorrects(user: UserId, delta: int, bonusDelta: int, reason: string, actor: UserId, key: string,
        now: Instant, s: State)
    requires var cmd := AdjustWallet(user, delta, bonusDelta, reason, actor, key, now);
             Applied(s, cmd) && WalletOf(s, user).Healthy()
    ensures var o := Apply(s, AdjustWallet(user, delta, bonusDelta, reason, actor, key, now));
            var row := o.result.value.ledger;
            && WalletOf(o.state, user).paid == WalletOf(s, user).paid + delta
            && WalletOf(o.state, user).bonus == WalletOf(s, user).bonus + bonusDelta
            && o.state.ledger == s.ledger + [row]
            && row.user == user && row.kind == Adjust && row.delta == delta && row.bonusDelta == bonusDelta
            && row.refType == RefAdminAdjust && row.actor == Some(actor) && row.reason == reason
            && row.createdAt == now && row.key == Namespaced("adjust", key)
  {
    var cmd := AdjustWallet(user, delta, bonusDelta, reason, actor, key, now);
    AppliedMoves(s, cmd, now);
    AppliedRecords(s, cmd);
  }

  /** The write-off takes what has lapsed and nothing else; a wallet with nothing to expire is refused. */
  lemma ExpireWritesOff(user: UserId, date: string, now: Instant, s: State)
    requires WalletOf(s, user).Healthy() && NewKeyFor(s, user, BonusExpireKey(user, date))
    ensures var o := Apply(s, ExpireBonus(user, date, now));
            if WalletOf(s, user).Lapsed(now)
            then o.result.Ok? && WalletOf(o.state, user) == Balance(WalletOf(s, user).paid, 0, None)
                 && |o.state.ledger| == |s.ledger| + 1
            else o == Outcome(s, Err(InvalidAmount))
  {
    var cmd := ExpireBonus(user, date, now);
    EmptyRowIsInvisible(s, cmd);
    if WalletOf(s, user).Lapsed(now) {
      AppliedMoves(s, cmd, now);
      AppliedRecords(s, cmd);
    }
  }

  predicate NewKeyFor(s: State, user: UserId, key: string) {
    key == "" || FindKey(s.ledger, user, key) == None
  }

  // ---------------------------------------------------------- how it is filed

  /** Whose the command is, the key that makes a retry of it a replay, and what it is for. */
  predicate Filed(cmd: Command, user: UserId, key: string, kind: Kind, refType: RefType, refId: Option<int>) {
    && cmd.user == user && cmd.key == key
    && cmd.op.kind == kind && cmd.op.refType == refType && cmd.op.refId == refId
  }

  /** The client's key under the endpoint's name; without one, a retry is a call of its own. */
  lemma CommandsAreFiled(s: State, user: UserId, id: int, key: string, now: Instant, fee: int, n: int, text: string,
        quote: ArcQuote)
    ensures var r := UnlockChapter(s.catalog, user, id, key, now, fee);
            r.Ok? ==> Filed(r.value, user, if key == "" then "" else "unlock:" + key, SpendUnlock, RefChapterUnlock,
                            Some(id))
    ensures var r := AutoUnlockChapter(s.catalog, user, id, now, fee);
            r.Ok? ==> Filed(r.value, user, AutoUnlockKey(user, id), SpendUnlock, RefAutoUnlock, Some(id))
    ensures var r := TipChapter(s.catalog, user, id, n, key, now, fee);
            r.Ok? ==> Filed(r.value, user, if key == "" then "" else "tip:" + key, Tip, RefChapterTip, Some(id))
    ensures var r := CompletePurchase(s, user, id, n, key, now);
            r.Ok? ==> Filed(r.value, user, if key == "" then "" else "topup:" + key, Topup, RefPurchase, Some(id))
    ensures Filed(UnlockArc(user, id, quote, key, now), user, if key == "" then "" else "arc_unlock:" + key,
                  SpendUnlock, RefArcBundle, Some(id))
    ensures Filed(AdjustWallet(user, n, fee, text, id, key, now), user, if key == "" then "" else "adjust:" + key,
                  Adjust, RefAdminAdjust, None)
    ensures Filed(ExpireBonus(user, text, now), user, BonusExpireKey(user, text), BonusExpire, RefBonusExpire, None)
  {
  }

  // ------------------------------------------------------------ a bundle bought

  ghost predicate ItemsFor(cat: Catalog, user: UserId, fee: int, items: seq<Item>) {
    forall item :: item in items ==> ItemFor(cat, user, fee, item)
  }

  /** Every item is unlocked for its share, in order. */
  ghost predicate UnlocksItems(added: seq<UnlockRow>, user: UserId, items: seq<Item>, ledgerId: nat, now: Instant) {
    && |added| == |items|
    && forall i :: 0 <= i < |items| ==>
         added[i] == UnlockRow(user, items[i].chapter, items[i].coins, ledgerId, now)
  }

  predicate EarnedBy(cat: Catalog, user: UserId, item: Item, fee: int, ledgerId: nat, now: Instant, e: EarningRow) {
    && Readable(cat, item.chapter)
    && var payee := PayeeOf(cat, item.chapter, user);
       EarningFor(payee, item.chapter, ledgerId, item.coins, fee, EarningUnlock, now) == [e]
  }

  /** One earning for each item that has a writer to credit, and no other. */
  ghost predicate PaysWriters(added: seq<EarningRow>, cat: Catalog, user: UserId, items: seq<Item>, fee: int,
        ledgerId: nat, now: Instant) {
    && Earnings.UniqueEarnings(added)
    && forall e :: e in added <==> exists item :: item in items && EarnedBy(cat, user, item, fee, ledgerId, now, e)
  }

  lemma ItemPays(cat: Catalog, cmd: Command, item: Item, fee: int, id: nat, e: EarningRow)
    requires ItemFor(cat, cmd.user, fee, item)
    ensures EarnedBy(cat, cmd.user, item, fee, id, cmd.now, e) <==>
            (item.writer != 0
             && e == EarningRow(item.writer, item.chapter, id, item.coins, item.net, EarningUnlock, cmd.now))
  {
  }

  lemma {:induction false} ItemsPayWriters(cat: Catalog, cmd: Command, items: seq<Item>, fee: int, id: nat,
        e: EarningRow)
    requires ItemsFor(cat, cmd.user, fee, items)
    ensures e in ItemEarnings(cmd, items, id) <==>
            exists item :: item in items && EarnedBy(cat, cmd.user, item, fee, id, cmd.now, e)
  {
    if items != [] {
      var n := |items| - 1;
      assert items == items[..n] + [items[n]];
      ItemsPayWriters(cat, cmd, items[..n], fee, id, e);
      ItemPays(cat, cmd, items[n], fee, id, e);
    }
  }

  lemma BundlePaysWriters(cat: Catalog, s: State, cmd: Command, items: seq<Item>, fee: int, id: nat)
    requires cmd.child == ArcBundle(items) && CheckChild(s, cmd) == None && ItemsFor(cat, cmd.user, fee, items)
    ensures PaysWriters(ItemEarnings(cmd, items, id), cat, cmd.user, items, fee, id, cmd.now)
  {
    BundleItemsDistinct(s, cmd);
    var ids := ItemIds(items);
    assert forall i, j :: 0 <= i < j < |items| ==> ids[i] != ids[j];
    Earnings.ItemEarningsUnique(cmd, items, id);
    forall e
      ensures e in ItemEarnings(cmd, items, id) <==>
              exists item :: item in items && EarnedBy(cat, cmd.user, item, fee, id, cmd.now, e)
    {
      ItemsPayWriters(cat, cmd, items, fee, id, e);
    }
  }

  lemma BundleUnlocksItems(cmd: Command, items: seq<Item>, id: nat)
    requires forall item :: item in items ==> 0 <= item.coins <= MAX_INT16
    ensures UnlocksItems(ItemUnlocks(cmd, items, id), cmd.user, items, id, cmd.now)
  {
    forall i | 0 <= i < |items|
      ensures ToInt16(items[i].coins) == items[i].coins
    {
      assert items[i] in items;
    }
  }

  lemma QuotedItems(read: State, user: UserId, arc: int, listing: seq<ChapterSale>, quotedAt: Instant, fee: int,
        q: ArcQuote)
    requires arc in read.catalog.arcs && ArcListing(read.catalog, read.catalog.arcs[arc], listing)
    requires QuoteArc(read, user, arc, listing, quotedAt, fee) == Ok(q)
    ensures ItemsFor(read.catalog, user, fee, q.items)
    ensures forall item :: item in q.items ==> 0 <= item.coins <= MAX_INT16
  {
    ArcQuoteIsExact(read, user, arc, listing, quotedAt, fee);
    QuotedItemsFit(read, user, arc, listing, quotedAt, fee);
  }

  /**
    A bundle quoted in any earlier state and accepted now: the reader's usable coins fall by the
    quoted total, every item is unlocked for its share, and the writers get their parts.
   */
  lemma BundleSells(read: State, user: UserId, arc: int, listing: seq<ChapterSale>, quotedAt: Instant, fee: int,
        key: string, s: State, cmd: Command, q: ArcQuote)
    returns (unlocks: seq<UnlockRow>, earnings: seq<EarningRow>)
    requires arc in read.catalog.arcs && ArcListing(read.catalog, read.catalog.arcs[arc], listing)
    requires QuoteArc(read, user, arc, listing, quotedAt, fee) == Ok(q)
    requires cmd == UnlockArc(user, arc, q, key, cmd.now)
    requires Applied(s, cmd) && WalletOf(s, user).Healthy()
    ensures var s' := Apply(s, cmd).state;
            && WalletOf(s', user).paid + WalletOf(s', user).EffectiveBonus(cmd.now)
               == WalletOf(s, user).paid + WalletOf(s, user).EffectiveBonus(cmd.now) - q.quote.total
            && s'.unlocks == s.unlocks + unlocks && s'.earnings == s.earnings + earnings
            && UnlocksItems(unlocks, user, q.items, |s'.ledger|, cmd.now)
            && PaysWriters(earnings, read.catalog, user, q.items, fee, |s'.ledger|, cmd.now)
  {
    QuotedItems(read, user, arc, listing, quotedAt, fee, q);
    AppliedMoves(s, cmd, cmd.now);
    AppliedChild(s, cmd, q.quote.total);
    var id := |Apply(s, cmd).state.ledger|;
    unlocks, earnings := ItemUnlocks(cmd, q.items, id), ItemEarnings(cmd, q.items, id);
    BundlePaysWriters(read.catalog, s, cmd, q.items, fee, id);
    BundleUnlocksItems(cmd, q.items, id);
  }
}
