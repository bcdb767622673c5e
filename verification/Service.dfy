/** The wallet use cases: what each reads, the command it builds, and the bundle quote it shows. */
module Service {
  import opened Prelude
  import opened Coins
  import opened Store
  import opened LedgerTotals
  import opened Conservation
  import opened ExactlyOnce
  import Bundle

  // ------------------------------------------------------------------- keys

  /** A client key, prefixed with the operation; an absent key stays absent. */
  function Namespaced(op: string, key: string): string {
    if key == "" then "" else op + ":" + key
  }

  function Digit(n: int): char
    requires 0 <= n < 10
  {
    "0123456789"[n]
  }

  function Decimal(n: int): (s: string)
    ensures |s| > 0
    decreases n < 0, if n < 0 then -n else n
  {
    if n < 0 then "-" + Decimal(-n)
    else if n < 10 then [Digit(n)]
    else Decimal(n / 10) + [Digit(n % 10)]
  }

  /** The key of an automatic unlock is derived from the pair, not supplied. */
  function AutoUnlockKey(user: UserId, chapter: ChapterId): string {
    "autounlock:" + Decimal(user) + ":" + Decimal(chapter)
  }

  /** The key of a write-off is stamped with the calendar date. */
  function BonusExpireKey(user: UserId, date: string): string {
    "bonus_expire:" + Decimal(user) + ":" + date
  }

  const OPERATIONS := ["purchase", "topup", "unlock", "arc_unlock", "tip", "adjust", "autounlock", "bonus_expire"]

  /** The part of a key before its first colon. */
  function Prefix(key: string): string {
    if key == "" || key[0] == ':' then "" else [key[0]] + Prefix(key[1..])
  }

  lemma {:induction false} PrefixOfNamespaced(op: string, rest: string)
    requires ':' !in op
    ensures Prefix(op + ":" + rest) == op
  {
    if op == "" {
      assert op + ":" + rest == ":" + rest;
    } else {
      assert (op + ":" + rest)[1..] == op[1..] + ":" + rest;
      PrefixOfNamespaced(op[1..], rest);
    }
  }

  /** One client key used on two endpoints gives two different keys, and one endpoint keeps keys apart. */
  lemma NamespacedKeysNeverCollide(op: string, key: string, op': string, key': string)
    requires op in OPERATIONS && op' in OPERATIONS && key != ""
    ensures Namespaced(op, key) == Namespaced(op', key') <==> op == op' && key == key'
    ensures Namespaced(op, "") == "" != Namespaced(op, key)
  {
    PrefixOfNamespaced(op, key);
    PrefixOfNamespaced(op', key');
    if Namespaced(op, key) == Namespaced(op', key') {
      assert key == Namespaced(op, key)[|op| + 1..];
      assert key' == Namespaced(op', key')[|op'| + 1..];
    }
  }

  lemma DigitsDiffer(a: int, b: int)
    requires 0 <= a < 10 && 0 <= b < 10 && Digit(a) == Digit(b)
    ensures a == b && Digit(a) != '-' && Digit(a) != ':'
  {
  }

  lemma {:induction false} DecimalIsPlain(n: int)
    ensures ':' !in Decimal(n)
    ensures n >= 0 ==> Decimal(n)[0] != '-'
    decreases n < 0, if n < 0 then -n else n
  {
    if n < 0 {
      DecimalIsPlain(-n);
    } else {
      DigitsDiffer(n % 10, n % 10);
      if n >= 10 {
        DecimalIsPlain(n / 10);
      }
    }
  }

  lemma LastDigit(n: int)
    requires n >= 0
    ensures |Decimal(n)| == 1 <==> n < 10
    ensures Decimal(n)[|Decimal(n)| - 1] == Digit(n % 10)
    ensures n >= 10 ==> Decimal(n)[..|Decimal(n)| - 1] == Decimal(n / 10)
  {
  }

  lemma {:induction false} NaturalIsInjective(a: nat, b: nat)
    requires Decimal(a) == Decimal(b)
    ensures a == b
  {
    LastDigit(a);
    LastDigit(b);
    DigitsDiffer(a % 10, b % 10);
    if a >= 10 {
      NaturalIsInjective(a / 10, b / 10);
    }
  }

  lemma SignShows(n: int)
    ensures n < 0 <==> Decimal(n)[0] == '-'
    ensures n < 0 ==> Decimal(n)[1..] == Decimal(-n)
  {
    DecimalIsPlain(n);
  }

  /** Different numbers are written differently. */
  lemma DecimalIsInjective(a: int, b: int)
    requires Decimal(a) == Decimal(b)
    ensures a == b
  {
    SignShows(a);
    SignShows(b);
    if a < 0 {
      NaturalIsInjective(-a, -b);
    } else {
      NaturalIsInjective(a, b);
    }
  }

  lemma NumberThenText(a: int, x: string, b: int, y: string)
    requires Decimal(a) + ":" + x == Decimal(b) + ":" + y
    ensures a == b && x == y
  {
    DecimalIsPlain(a);
    DecimalIsPlain(b);
    PrefixOfNamespaced(Decimal(a), x);
    PrefixOfNamespaced(Decimal(b), y);
    DecimalIsInjective(a, b);
    var n := |Decimal(a)| + 1;
    assert x == (Decimal(a) + ":" + x)[n..] && y == (Decimal(b) + ":" + y)[n..];
  }

  lemma SamePrefix(p: string, a: string, b: string)
    requires p + a == p + b
    ensures a == b
  {
    assert a == (p + a)[|p|..] && b == (p + b)[|p|..];
  }

  lemma Split(p: string, a: string, x: string)
    ensures p + a + ":" + x == p + (a + ":" + x)
  {
  }

  /** The keys the service derives itself keep apart what they are derived from. */
  lemma DerivedKeysNeverCollide(user: UserId, chapter: ChapterId, date: string, user': UserId, chapter': ChapterId,
        date': string)
    ensures AutoUnlockKey(user, chapter) == AutoUnlockKey(user', chapter') <==> user == user' && chapter == chapter'
    ensures BonusExpireKey(user, date) == BonusExpireKey(user', date') <==> user == user' && date == date'
  {
    var auto, expire := "autounlock:", "bonus_expire:";
    if AutoUnlockKey(user, chapter) == AutoUnlockKey(user', chapter') {
      Split(auto, Decimal(user), Decimal(chapter));
      Split(auto, Decimal(user'), Decimal(chapter'));
      SamePrefix(auto, Decimal(user) + ":" + Decimal(chapter), Decimal(user') + ":" + Decimal(chapter'));
      NumberThenText(user, Decimal(chapter), user', Decimal(chapter'));
      DecimalIsInjective(chapter, chapter');
    }
    if BonusExpireKey(user, date) == BonusExpireKey(user', date') {
      Split(expire, Decimal(user), date);
      Split(expire, Decimal(user'), date');
      SamePrefix(expire, Decimal(user) + ":" + date, Decimal(user') + ":" + date');
      NumberThenText(user, date, user', date');
    }
  }

  // ------------------------------------------------------------------ reading

  datatype ChapterSale = ChapterSale(
    chapter: ChapterId, novel: int, no: int, price: Price, translator: Option<RowId>,
    publicAt: Option<Instant>, tipsEnabled: bool, sellByArc: bool)
  {
    predicate IsPublic(now: Instant) {
      publicAt.None? || publicAt.value <= now
    }
  }

  function ToSale(id: ChapterId, c: ChapterRow, n: NovelRow): ChapterSale {
    ChapterSale(id, c.novel, c.no, c.price, if c.translator.Some? then c.translator else n.translator,
                c.publicAt, n.tipsEnabled, n.sellByArc)
  }

  function ChapterForSale(cat: Catalog, id: ChapterId): Result<ChapterSale, Error> {
    if id !in cat.chapters || cat.chapters[id].novel !in cat.novels then Err(NotFound)
    else if cat.chapters[id].status != Published then Err(NotFound)
    else Ok(ToSale(id, cat.chapters[id], cat.novels[cat.chapters[id].novel]))
  }

  /** An arc's published, paid chapters by number range, in chapter order. */
  ghost predicate ArcListing(cat: Catalog, arc: ArcRow, listing: seq<ChapterSale>) {
    && (forall i :: 0 <= i < |listing| ==>
          && ChapterForSale(cat, listing[i].chapter) == Ok(listing[i])
          && listing[i].novel == arc.novel && listing[i].price > 0 && arc.fromNo <= listing[i].no <= arc.toNo)
    && (forall i, j :: 0 <= i < j < |listing| ==> listing[i].no < listing[j].no)
    && (forall id :: id in cat.chapters && ChapterForSale(cat, id).Ok? && cat.chapters[id].novel == arc.novel
                     && cat.chapters[id].price > 0 && arc.fromNo <= cat.chapters[id].no <= arc.toNo ==>
          exists i :: 0 <= i < |listing| && listing[i].chapter == id)
  }

  predicate Subscribed(cat: Catalog, user: UserId, novel: int) {
    user != 0 && (user, novel) in cat.subscriptions
  }

  predicate HasEarly(listing: seq<ChapterSale>, now: Instant) {
    exists c | c in listing :: !c.IsPublic(now)
  }

  // ------------------------------------------------------- building commands

  const NO_OP := Operation(Adjust, 0, 0, 0, 0, 0, 0, NoRef, None)

  /** Who is credited: the translator, unless that is the buyer. */
  function Credited(sale: ChapterSale, user: UserId): UserId {
    if sale.translator.Some? && sale.translator.value != user then sale.translator.value else 0
  }

  function UnlockChild(user: UserId, sale: ChapterSale, coins: int, fee: int): Child {
    var writer := Credited(sale, user);
    ChapterUnlock(sale.chapter, writer, if writer != 0 then NetCoins(coins, fee) else 0)
  }

  function UnlockChapter(cat: Catalog, user: UserId, chapter: ChapterId, key: string, now: Instant,
        fee: int): Result<Command, Error> {
    match ChapterForSale(cat, chapter)
    case Err(e) => Err(e)
    case Ok(sale) =>
      if sale.price <= 0 then Err(ChapterNotForSale)
      else if !sale.IsPublic(now) && !Subscribed(cat, user, sale.novel) then Err(EarlyAccessOnly)
      else
        Ok(Command(user, Namespaced("unlock", key), now,
                   NO_OP.(kind := SpendUnlock, amount := sale.price, refType := RefChapterUnlock,
                          refId := Some(chapter)),
                   UnlockChild(user, sale, sale.price, fee), None, ""))
  }

  function AutoUnlockChapter(cat: Catalog, user: UserId, chapter: ChapterId, now: Instant,
        fee: int): Result<Command, Error> {
    match ChapterForSale(cat, chapter)
    case Err(e) => Err(e)
    case Ok(sale) =>
      if sale.price <= 0 then Err(ChapterNotForSale)
      else
        Ok(Command(user, AutoUnlockKey(user, chapter), now,
                   NO_OP.(kind := SpendUnlock, amount := sale.price, refType := RefAutoUnlock, refId := Some(chapter)),
                   UnlockChild(user, sale, sale.price, fee), None, ""))
  }

  const MIN_TIP_COINS := 1
  const MAX_TIP_COINS := 1000

  function TipChapter(cat: Catalog, user: UserId, chapter: ChapterId, coins: int, key: string, now: Instant,
        fee: int): Result<Command, Error> {
    if coins < MIN_TIP_COINS || coins > MAX_TIP_COINS then Err(InvalidAmount)
    else
      match ChapterForSale(cat, chapter)
      case Err(e) => Err(e)
      case Ok(sale) =>
        if !sale.tipsEnabled then Err(TipsDisabled)
        else if sale.translator.None? then Err(NotFound)
        else if sale.translator.value == user then Err(CannotTipSelf)
        else
          Ok(Command(user, Namespaced("tip", key), now,
                     NO_OP.(kind := Tip, amount := coins, refType := RefChapterTip, refId := Some(chapter)),
                     TipChild(chapter, sale.translator.value, NetCoins(coins, fee)), None, ""))
  }

  function CompletePurchase(s: State, user: UserId, purchase: int, ttl: int, key: string,
        now: Instant): Result<Command, Error> {
    if !(1 <= purchase <= |s.purchases|) || s.purchases[purchase - 1].user != user then Err(NotFound)
    else if s.purchases[purchase - 1].pack !in s.catalog.packs then Err(PackNotFound)
    else
      var pack := s.catalog.packs[s.purchases[purchase - 1].pack];
      Ok(Command(user, Namespaced("topup", key), now,
                 NO_OP.(kind := Topup, coins := pack.coins, bonusCoins := pack.bonusCoins, bonusTTL := ttl,
                        refType := RefPurchase, refId := Some(purchase)),
                 PurchaseComplete(purchase), None, ""))
  }

  function AdjustWallet(user: UserId, delta: int, bonusDelta: int, reason: string, actor: UserId, key: string,
        now: Instant): Command {
    Command(user, Namespaced("adjust", key), now,
            NO_OP.(kind := Adjust, delta := delta, bonusDelta := bonusDelta, refType := RefAdminAdjust),
            NoChild, Some(actor), reason)
  }

  function ExpireBonus(user: UserId, date: string, now: Instant): Command {
    Command(user, BonusExpireKey(user, date), now, NO_OP.(kind := BonusExpire, refType := RefBonusExpire),
            NoChild, None, "")
  }

  // ------------------------------------------------------------ bundle quotes

  datatype ArcQuote = ArcQuote(quote: Bundle.BundleQuote, chapters: seq<ChapterSale>, items: seq<Item>)

  /** What the reader still needs and may buy. */
  predicate Wanted(s: State, user: UserId, now: Instant, c: ChapterSale) {
    !Owns(s.unlocks, user, c.chapter) && (c.IsPublic(now) || Subscribed(s.catalog, user, c.novel))
  }

  function WantedOf(s: State, user: UserId, now: Instant, listing: seq<ChapterSale>): (r: seq<ChapterSale>)
    ensures forall c :: c in r <==> c in listing && Wanted(s, user, now, c)
  {
    if listing == [] then []
    else
      var n := |listing| - 1;
      assert listing == listing[..n] + [listing[n]];
      WantedOf(s, user, now, listing[..n]) + if Wanted(s, user, now, listing[n]) then [listing[n]] else []
  }

  function Prices(chapters: seq<ChapterSale>): (r: seq<int>)
    ensures |r| == |chapters|
  {
    seq(|chapters|, i requires 0 <= i < |chapters| => chapters[i].price)
  }

  function BundleItem(user: UserId, fee: int, c: ChapterSale, coins: int): Item {
    var writer := Credited(c, user);
    Item(c.chapter, c.price, coins, writer, if writer != 0 then NetCoins(coins, fee) else 0)
  }

  function BundleItems(user: UserId, fee: int, chapters: seq<ChapterSale>, shares: seq<int>): (r: seq<Item>)
    requires |shares| == |chapters|
    ensures |r| == |chapters|
  {
    seq(|chapters|, i requires 0 <= i < |chapters| => BundleItem(user, fee, chapters[i], shares[i]))
  }

  function QuoteArc(s: State, user: UserId, arc: int, listing: seq<ChapterSale>, now: Instant,
        fee: int): Result<ArcQuote, Error> {
    if arc !in s.catalog.arcs || s.catalog.arcs[arc].novel !in s.catalog.novels then Err(NotFound)
    else if !s.catalog.novels[s.catalog.arcs[arc].novel].sellByArc then Err(ArcNotForSale)
    else
      var wanted := WantedOf(s, user, now, listing);
      match Bundle.Quote(Prices(wanted), Bundle.ARC_BUNDLE_DISCOUNT_PERCENT)
      case Err(e) => Err(e)
      case Ok(q) => Ok(ArcQuote(q, wanted, BundleItems(user, fee, wanted, q.perChapter)))
  }

  function UnlockArc(user: UserId, arc: int, quote: ArcQuote, key: string, now: Instant): Command {
    Command(user, Namespaced("arc_unlock", key), now,
            NO_OP.(kind := SpendUnlock, amount := quote.quote.total, refType := RefArcBundle, refId := Some(arc)),
            ArcBundle(quote.items), None, "")
  }

  /** Pricing an arc for a reader. The listing is the answer of the arc query on the same state. */
  method QuoteArcBundle(s: State, user: UserId, arc: int, listing: seq<ChapterSale>, now: Instant, fee: int)
    returns (r: Result<ArcQuote, Error>)
    requires arc in s.catalog.arcs ==> ArcListing(s.catalog, s.catalog.arcs[arc], listing)
    ensures r == QuoteArc(s, user, arc, listing, now, fee)
  {
    if arc !in s.catalog.arcs || s.catalog.arcs[arc].novel !in s.catalog.novels {
      return Err(NotFound);
    }
    var novel := s.catalog.arcs[arc].novel;
    if !s.catalog.novels[novel].sellByArc {
      return Err(ArcNotForSale);
    }
    var wanted, prices := SelectWanted(s, user, novel, listing, now);
    var priceList := new int[|prices|](i requires 0 <= i < |prices| => prices[i]);
    assert priceList[..] == prices;
    var quoted := Bundle.QuoteBundle(priceList, Bundle.ARC_BUNDLE_DISCOUNT_PERCENT);
    if quoted.Err? {
      return Err(quoted.error);
    }
    var items := MakeItems(user, fee, wanted, quoted.value.perChapter);
    return Ok(ArcQuote(quoted.value, wanted, items));
  }

  /** The chapters still needed, and their prices. Subscriptions are looked up only when a chapter is early. */
  method SelectWanted(s: State, user: UserId, novel: int, listing: seq<ChapterSale>, now: Instant)
    returns (wanted: seq<ChapterSale>, prices: seq<int>)
    requires forall i :: 0 <= i < |listing| ==> listing[i].novel == novel
    ensures wanted == WantedOf(s, user, now, listing) && prices == Prices(wanted)
  {
    var early := HasEarlyChapters(listing, now);
    var subscribed := early && Subscribed(s.catalog, user, novel);
    wanted, prices := [], [];
    for i := 0 to |listing|
      invariant wanted == WantedOf(s, user, now, listing[..i])
      invariant prices == Prices(wanted)
    {
      var c := listing[i];
      assert c in listing && listing[..i + 1][..i] == listing[..i];
      if !Owns(s.unlocks, user, c.chapter) && (c.IsPublic(now) || subscribed) {
        wanted := wanted + [c];
        prices := prices + [c.price];
      }
    }
    assert listing[..|listing|] == listing;
  }

  method MakeItems(user: UserId, fee: int, wanted: seq<ChapterSale>, shares: seq<int>) returns (items: seq<Item>)
    requires |shares| == |wanted|
    ensures items == BundleItems(user, fee, wanted, shares)
  {
    items := [];
    for i := 0 to |wanted|
      invariant |items| == i
      invariant forall j :: 0 <= j < i ==> items[j] == BundleItem(user, fee, wanted[j], shares[j])
    {
      items := items + [BundleItem(user, fee, wanted[i], shares[i])];
    }
  }

  method HasEarlyChapters(listing: seq<ChapterSale>, now: Instant) returns (early: bool)
    ensures early <==> HasEarly(listing, now)
  {
    for i := 0 to |listing|
      invariant forall j :: 0 <= j < i ==> listing[j].IsPublic(now)
    {
      if !listing[i].IsPublic(now) {
        assert listing[i] in listing;
        return true;
      }
    }
    return false;
  }

  // ------------------------------------------ the commands are service-shaped

  lemma {:induction false} AllocatedIsSum(items: seq<Item>, shares: seq<int>)
    requires |items| == |shares| && forall i :: 0 <= i < |items| ==> items[i].coins == shares[i]
    ensures Allocated(items) == Sum(shares)
  {
    if items != [] {
      AllocatedIsSum(items[..|items| - 1], shares[..|shares| - 1]);
    }
  }

  /** A quote's items cost what the quote charges, each within its stored price. */
  lemma QuotedItemsFit(s: State, user: UserId, arc: int, listing: seq<ChapterSale>, now: Instant, fee: int)
    requires QuoteArc(s, user, arc, listing, now, fee).Ok?
    ensures var q := QuoteArc(s, user, arc, listing, now, fee).value;
            && Allocated(q.items) == q.quote.total > 0
            && Prices(q.chapters) == seq(|q.items|, i requires 0 <= i < |q.items| => q.items[i].listPrice)
            && forall item :: item in q.items ==> 0 <= item.coins <= item.listPrice <= MAX_INT16
  {
    var q := QuoteArc(s, user, arc, listing, now, fee).value;
    Bundle.QuoteIsExact(Prices(q.chapters), Bundle.ARC_BUNDLE_DISCOUNT_PERCENT);
    AllocatedIsSum(q.items, q.quote.perChapter);
  }

  /** Every command any use case builds, from any state it may have read, has the shape the accounts rely on. */
  lemma UseCasesAreServiceShaped(s: State, user: UserId, id: int, key: string, now: Instant, fee: int, n: int,
        text: string)
    ensures UnlockChapter(s.catalog, user, id, key, now, fee).Ok? ==>
              ServiceShaped(UnlockChapter(s.catalog, user, id, key, now, fee).value)
    ensures AutoUnlockChapter(s.catalog, user, id, now, fee).Ok? ==>
              ServiceShaped(AutoUnlockChapter(s.catalog, user, id, now, fee).value)
    ensures TipChapter(s.catalog, user, id, n, key, now, fee).Ok? ==>
              ServiceShaped(TipChapter(s.catalog, user, id, n, key, now, fee).value)
    ensures CompletePurchase(s, user, id, n, key, now).Ok? ==>
              ServiceShaped(CompletePurchase(s, user, id, n, key, now).value)
    ensures ServiceShaped(AdjustWallet(user, n, fee, text, id, key, now))
    ensures ServiceShaped(ExpireBonus(user, text, now))
  {
  }

  lemma BundlesAreServiceShaped(s: State, user: UserId, arc: int, listing: seq<ChapterSale>, quotedAt: Instant,
        fee: int, key: string, now: Instant)
    requires QuoteArc(s, user, arc, listing, quotedAt, fee).Ok?
    ensures ServiceShaped(UnlockArc(user, arc, QuoteArc(s, user, arc, listing, quotedAt, fee).value, key, now))
  {
    QuotedItemsFit(s, user, arc, listing, quotedAt, fee);
  }

  // ------------------------------------------------------------- stale quotes

  /** The prices a state lists for a bundle's chapters. */
  function CurrentPrices(cat: Catalog, items: seq<Item>): seq<int>
    requires forall item :: item in items ==> item.chapter in cat.chapters
  {
    seq(|items|, i requires 0 <= i < |items| => cat.chapters[items[i].chapter].price)
  }

  /**
    A bundle quoted in any earlier state is either refused or honoured as if quoted now:
    every chapter is published, unowned, listed once and at its quoted price in the state
    that commits, and the debit and the shares are those of a fresh quote over the same chapters.
   */
  lemma StaleQuotesAreNeverHonoured(
      quoted: State, user: UserId, arc: int, listing: seq<ChapterSale>, quotedAt: Instant, fee: int,
      key: string, now: Instant, s: State)
    requires QuoteArc(quoted, user, arc, listing, quotedAt, fee).Ok?
    requires WalletOf(s, user).Healthy()
    requires var cmd := UnlockArc(user, arc, QuoteArc(quoted, user, arc, listing, quotedAt, fee).value, key, now);
             Apply(s, cmd).result.Ok? && !Apply(s, cmd).result.value.replayed
    ensures var q := QuoteArc(quoted, user, arc, listing, quotedAt, fee).value;
            var row := Apply(s, UnlockArc(user, arc, q, key, now)).result.value.ledger;
            && Distinct(ItemIds(q.items))
            && (forall item :: item in q.items ==>
                  && item.chapter in s.catalog.chapters
                  && s.catalog.chapters[item.chapter].status == Published
                  && s.catalog.chapters[item.chapter].price == item.listPrice
                  && !Owns(s.unlocks, user, item.chapter))
            && Bundle.Quote(CurrentPrices(s.catalog, q.items), Bundle.ARC_BUNDLE_DISCOUNT_PERCENT) == Ok(q.quote)
            && Debit(row, q.quote.total)
  {
    var q := QuoteArc(quoted, user, arc, listing, quotedAt, fee).value;
    var cmd := UnlockArc(user, arc, q, key, now);
    QuotedItemsFit(quoted, user, arc, listing, quotedAt, fee);
    var plan := ApplyShape(s, cmd);
    BundleHolds(s, cmd);
    assert CurrentPrices(s.catalog, q.items) == Prices(q.chapters) by {
      forall i | 0 <= i < |q.items|
        ensures s.catalog.chapters[q.items[i].chapter].price == Prices(q.chapters)[i]
      {
        assert q.items[i] in q.items;
      }
    }
  }

  /** What passing the checks under the lock says about the committing state. */
  lemma BundleHolds(s: State, cmd: Command)
    requires cmd.child.ArcBundle? && CheckChild(s, cmd) == None
    ensures Distinct(ItemIds(cmd.child.items))
    ensures forall item :: item in cmd.child.items ==>
              && item.chapter in s.catalog.chapters
              && s.catalog.chapters[item.chapter].status == Published
              && s.catalog.chapters[item.chapter].price == item.listPrice
              && !Owns(s.unlocks, cmd.user, item.chapter)
  {
    var items := cmd.child.items;
    BundleItemsDistinct(s, cmd);
    forall item | item in items
      ensures && item.chapter in s.catalog.chapters
              && s.catalog.chapters[item.chapter].status == Published
              && s.catalog.chapters[item.chapter].price == item.listPrice
              && !Owns(s.unlocks, cmd.user, item.chapter)
    {
      var i :| 0 <= i < |items| && items[i] == item;
      assert ItemIds(items)[i] in ItemIds(items);
      assert StillAsQuoted(ChaptersIn(s.catalog.chapters, ItemIds(items)), item);
    }
  }

  /**
    A single unlock has no such re-check: whatever the state that commits says, it debits the price
    read before the lock.
   */
  lemma UnlockChargesThePriceRead(read: Catalog, user: UserId, chapter: ChapterId, key: string, now: Instant,
        fee: int, s: State)
    requires UnlockChapter(read, user, chapter, key, now, fee).Ok? && WalletOf(s, user).Healthy()
    requires var cmd := UnlockChapter(read, user, chapter, key, now, fee).value;
             Apply(s, cmd).result.Ok? && !Apply(s, cmd).result.value.replayed
    ensures chapter in read.chapters
    ensures var row := Apply(s, UnlockChapter(read, user, chapter, key, now, fee).value).result.value.ledger;
            Debit(row, read.chapters[chapter].price)
  {
    var plan := ApplyShape(s, UnlockChapter(read, user, chapter, key, now, fee).value);
  }

  // ------------------------------------------ the bundle retry and its target

  /**
    A bundle recognises a retry by its key alone, before quoting. The receipt it returns
    is for the arc now asked for exactly when that is the arc the key was first used for;
    the write path itself would refuse the reuse in exactly the other case.
   */
  lemma BundleRetryIgnoresTheArc(s: State, cmd: Command, events: seq<Event>, arc: int, other: int, retry: Command)
    requires cmd.key != "" && cmd.op.kind == SpendUnlock && cmd.op.refType == RefArcBundle && cmd.op.refId == Some(arc)
    requires Apply(s, cmd).result.Ok?
    requires retry.user == cmd.user && retry.key == cmd.key && retry.op.kind == SpendUnlock
    requires retry.op.refType == RefArcBundle && retry.op.refId == Some(other)
    ensures var later := Run(Apply(s, cmd).state, events);
            var answer := ReplayByKey(later, cmd.user, cmd.key);
            && answer.Some? && answer.value.ledger == Apply(s, cmd).result.value.ledger
            && answer.value.replayed && answer.value.balance == WalletOf(later, cmd.user) && answer.value.expiry == None
            && (answer.value.ledger.refId == Some(other) <==> other == arc)
            && (Apply(later, retry).result == Err(IdempotencyConflict) <==> other != arc)
  {
    var first := Apply(s, cmd);
    AppliedKeyIsStored(s, cmd);
    LedgerOnlyGrows(first.state, events);
    FindKeyPersists(first.state.ledger, Run(first.state, events).ledger, cmd.user, cmd.key);
    RetryIsReplay(s, cmd, events, retry);
  }
}
