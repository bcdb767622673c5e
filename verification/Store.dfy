/**
  The tables of the coin economy and what one coin operation does to them.
  Tables are sequences or maps of rows; a string key of "" stands for SQL NULL.
 */
module Store {
  import opened Prelude
  import opened Coins
  import opened Spend

  // ------------------------------------------------------------------- tables

  /** What an operation refers to; part of its idempotency target. */
  datatype RefType =
    | NoRef | RefChapterUnlock | RefArcBundle | RefAutoUnlock
    | RefChapterTip | RefPurchase | RefAdminAdjust | RefBonusExpire

  datatype LedgerRow = LedgerRow(
    id: nat, user: UserId, delta: int, bonusDelta: int, kind: Kind, refType: RefType, refId: Option<int>,
    balanceAfter: int, bonusAfter: int, reason: string, actor: Option<UserId>, key: string, createdAt: Instant)

  datatype UnlockRow = UnlockRow(user: UserId, chapter: ChapterId, coinsSpent: int, ledgerId: nat, unlockedAt: Instant)

  datatype EarningKind = EarningUnlock | EarningTip

  datatype EarningRow = EarningRow(
    writer: UserId, chapter: ChapterId, ledgerId: nat, gross: int, net: int, kind: EarningKind, createdAt: Instant)

  datatype PurchaseStatus = Pending | Succeeded | Failed

  datatype PurchaseRow = PurchaseRow(user: UserId, pack: int, status: PurchaseStatus, key: string,
          ledgerId: Option<nat>)

  /** A SMALLINT price column under its CHECK. */
  type Price = x: int | 0 <= x <= MAX_INT16

  /** An identity column: zero is free to mean "nobody". */
  type RowId = x: int | x > 0 witness 1

  datatype ChapterStatus = Draft | Scheduled | Published

  datatype ChapterRow = ChapterRow(
    novel: int, no: int, status: ChapterStatus, price: Price, translator: Option<RowId>, publicAt: Option<Instant>)

  datatype NovelRow = NovelRow(translator: Option<RowId>, sellByArc: bool, tipsEnabled: bool)

  datatype ArcRow = ArcRow(novel: int, fromNo: int, toNo: int)

  datatype PackRow = PackRow(coins: int, bonusCoins: int)

  /** Everything the coin paths read but never write. */
  datatype Catalog = Catalog(
    chapters: map<ChapterId, ChapterRow>, novels: map<int, NovelRow>, arcs: map<int, ArcRow>,
    packs: map<int, PackRow>, subscriptions: set<(UserId, int)>)

  /** Ledger and purchase rows are numbered from 1 in commit order. */
  datatype State = State(
    wallets: map<UserId, Balance>, ledger: seq<LedgerRow>, unlocks: seq<UnlockRow>, earnings: seq<EarningRow>,
    purchases: seq<PurchaseRow>, catalog: Catalog)

  // ----------------------------------------------------------------- commands

  datatype Item = Item(chapter: ChapterId, listPrice: int, coins: int, writer: UserId, net: int)

  datatype Child =
    | NoChild
    | ChapterUnlock(chapter: ChapterId, writer: UserId, net: int)
    | PurchaseComplete(purchase: int)
    | ArcBundle(items: seq<Item>)
    | TipChild(chapter: ChapterId, writer: UserId, net: int)

  datatype Operation = Operation(
    kind: Kind, amount: int, coins: int, bonusCoins: int, bonusTTL: int, delta: int, bonusDelta: int,
    refType: RefType, refId: Option<int>)

  datatype Command = Command(
    user: UserId, key: string, now: Instant, op: Operation, child: Child, actor: Option<UserId>, reason: string)

  datatype Receipt = Receipt(ledger: LedgerRow, expiry: Option<LedgerRow>, balance: Balance, replayed: bool)

  datatype Outcome = Outcome(state: State, result: Result<Receipt, Error>)

  // ------------------------------------------------------------------ queries

  function WalletOf(s: State, user: UserId): Balance {
    if user in s.wallets then s.wallets[user] else EMPTY_WALLET
  }

  /** The row stored under a key; the unique index makes "the first" mean "the only". */
  function FindKey(ledger: seq<LedgerRow>, user: UserId, key: string): (r: Option<LedgerRow>)
    ensures r.Some? ==> r.value in ledger && r.value.user == user && r.value.key == key
    ensures r.None? ==> forall row :: row in ledger ==> !(row.user == user && row.key == key)
  {
    if ledger == [] then None
    else
      var init, last := ledger[..|ledger| - 1], ledger[|ledger| - 1];
      assert ledger == init + [last];
      var earlier := FindKey(init, user, key);
      if earlier.Some? then earlier
      else if last.user == user && last.key == key then Some(last)
      else None
  }

  predicate Owns(unlocks: seq<UnlockRow>, user: UserId, chapter: ChapterId) {
    exists u | u in unlocks :: u.user == user && u.chapter == chapter
  }

  function ItemIds(items: seq<Item>): (ids: seq<ChapterId>)
    ensures |ids| == |items|
    ensures forall i :: 0 <= i < |items| ==> ids[i] == items[i].chapter
  {
    seq(|items|, i requires 0 <= i < |items| => items[i].chapter)
  }

  /** `WHERE id IN ids`: one row for each distinct id that exists. */
  function ChaptersIn(chapters: map<ChapterId, ChapterRow>, ids: seq<ChapterId>): map<ChapterId, ChapterRow> {
    map id | id in ids && id in chapters :: chapters[id]
  }

  /** The quote this item came from still describes the chapter. */
  predicate StillAsQuoted(rows: map<ChapterId, ChapterRow>, item: Item) {
    item.chapter in rows && rows[item.chapter].status == Published && rows[item.chapter].price == item.listPrice
  }

  function Allocated(items: seq<Item>): int {
    if items == [] then 0 else Allocated(items[..|items| - 1]) + items[|items| - 1].coins
  }

  // ----------------------------------------------------- the stages of Apply

  predicate SameTarget(row: LedgerRow, cmd: Command) {
    row.kind == cmd.op.kind && row.refType == cmd.op.refType && row.refId == cmd.op.refId
  }

  function EnsureWallet(s: State, user: UserId): State {
    if user in s.wallets then s else s.(wallets := s.wallets[user := EMPTY_WALLET])
  }

  /** The stored answer for an applied key, or None when the key is new. */
  function Replay(s: State, cmd: Command): Option<Result<Receipt, Error>> {
    match FindKey(s.ledger, cmd.user, cmd.key)
    case None => None
    case Some(row) =>
      if SameTarget(row, cmd) then Some(Ok(Receipt(row, None, WalletOf(s, cmd.user), true)))
      else Some(Err(IdempotencyConflict))
  }

  /** The re-checks made under the wallet lock, or None when the child rows may be written. */
  function CheckChild(s: State, cmd: Command): Option<Error> {
    match cmd.child
    case ChapterUnlock(chapter, _, _) =>
      if Owns(s.unlocks, cmd.user, chapter) then Some(AlreadyUnlocked) else None
    case PurchaseComplete(p) =>
      if !(1 <= p <= |s.purchases|) then Some(NotFound)
      else if s.purchases[p - 1].user != cmd.user then Some(NotFound)
      else if s.purchases[p - 1].status != Pending then Some(PurchaseNotPending)
      else None
    case ArcBundle(items) =>
      var ids := ItemIds(items);
      var rows := ChaptersIn(s.catalog.chapters, ids);
      if items == [] then Some(ArcAlreadyOwned)
      else if exists id | id in ids :: Owns(s.unlocks, cmd.user, id) then Some(BundleStale)
      else if |rows| != |ids| then Some(BundleStale)
      else if exists item | item in items :: !StillAsQuoted(rows, item) then Some(BundleStale)
      else None
    case TipChild(_, _, _) => None
    case NoChild => None
  }

  function PlanFor(bal: Balance, cmd: Command): Result<Plan, Error> {
    var op := cmd.op;
    match op.kind
    case SpendUnlock => PlanSpend(bal, op.amount, cmd.now)
    case Tip => PlanSpendPaidOnly(bal, op.amount, cmd.now)
    case Topup | BonusGrant | Refund =>
      (match PlanCredit(bal, op.coins, op.bonusCoins, op.bonusTTL, cmd.now)
       case Err(e) => Err(e)
       case Ok(plan) => Ok(plan.(entry := plan.entry.(kind := op.kind))))
    case Adjust => PlanAdjust(bal, op.delta, op.bonusDelta)
    case BonusExpire =>
      (match PlanBonusExpiry(bal, cmd.now)
       case None => Err(InvalidAmount)
       case Some(plan) => Ok(plan))
  }

  function ToLedgerRow(cmd: Command, entry: Entry, key: string, id: nat): LedgerRow {
    LedgerRow(id, cmd.user, entry.delta, entry.bonusDelta, entry.kind, cmd.op.refType, cmd.op.refId,
              entry.balanceAfter, entry.bonusAfter, cmd.reason, cmd.actor, key, cmd.now)
  }

  /** The rows a plan appends: the write-off first, without a key, then the main row. */
  function PlanRows(cmd: Command, plan: Plan, next: nat): (rows: seq<LedgerRow>)
    ensures 1 <= |rows| <= 2
  {
    match plan.expiry
    case None => [ToLedgerRow(cmd, plan.entry, cmd.key, next)]
    case Some(e) => [ToLedgerRow(cmd, e, "", next), ToLedgerRow(cmd, plan.entry, cmd.key, next + 1)]
  }

  /** Ledger and balance after the plan, before any child row. */
  function Post(s: State, cmd: Command, plan: Plan): State {
    s.(ledger := s.ledger + PlanRows(cmd, plan, |s.ledger| + 1), wallets := s.wallets[cmd.user := plan.result])
  }

  /** Inserting under the primary key (user, chapter): None when a row is already there. */
  function InsertUnlocks(unlocks: seq<UnlockRow>, rows: seq<UnlockRow>): Option<seq<UnlockRow>>
    decreases |rows|
  {
    if rows == [] then Some(unlocks)
    else if Owns(unlocks, rows[0].user, rows[0].chapter) then None
    else InsertUnlocks(unlocks + [rows[0]], rows[1..])
  }

  function ItemUnlocks(cmd: Command, items: seq<Item>, ledgerId: nat): (rows: seq<UnlockRow>)
    ensures |rows| == |items|
  {
    seq(|items|, i requires 0 <= i < |items| =>
      UnlockRow(cmd.user, items[i].chapter, ToInt16(items[i].coins), ledgerId, cmd.now))
  }

  function ItemEarnings(cmd: Command, items: seq<Item>, ledgerId: nat): seq<EarningRow> {
    if items == [] then []
    else
      var item := items[|items| - 1];
      ItemEarnings(cmd, items[..|items| - 1], ledgerId) +
      if item.writer != 0
      then [EarningRow(item.writer, item.chapter, ledgerId, item.coins, item.net, EarningUnlock, cmd.now)]
      else []
  }

  /** The rows written beside the ledger row, referencing it. */
  function WriteChild(s: State, cmd: Command, ledgerId: nat, entry: Entry): Result<State, Error> {
    var spent := -(entry.delta + entry.bonusDelta);
    match cmd.child
    case ChapterUnlock(chapter, writer, net) =>
      (match InsertUnlocks(s.unlocks, [UnlockRow(cmd.user, chapter, ToInt16(spent), ledgerId, cmd.now)])
       case None => Err(AlreadyUnlocked)
       case Some(unlocks) =>
         Ok(s.(unlocks := unlocks,
               earnings := s.earnings +
                           if writer != 0
                           then [EarningRow(writer, chapter, ledgerId, spent, net, EarningUnlock, cmd.now)]
                           else [])))
    case PurchaseComplete(p) =>
      if 1 <= p <= |s.purchases| && s.purchases[p - 1].status == Pending then
        Ok(s.(purchases := s.purchases[p - 1 := s.purchases[p - 1].(status := Succeeded, ledgerId := Some(ledgerId))]))
      else Err(PurchaseNotPending)
    case ArcBundle(items) =>
      (match InsertUnlocks(s.unlocks, ItemUnlocks(cmd, items, ledgerId))
       case None => Err(BundleStale)
       case Some(unlocks) => Ok(s.(unlocks := unlocks, earnings := s.earnings + ItemEarnings(cmd, items, ledgerId))))
    case TipChild(chapter, writer, net) =>
      if writer == 0 then Err(NotFound)
      else Ok(s.(earnings := s.earnings + [EarningRow(writer, chapter, ledgerId, spent, net, EarningTip, cmd.now)]))
    case NoChild => Ok(s)
  }

  /** A new key: check, plan, post, and write the child rows, or leave everything as it was. */
  function ApplyFresh(s: State, cmd: Command): Result<(State, Receipt), Error> {
    match CheckChild(s, cmd)
    case Some(e) => Err(e)
    case None =>
      match PlanFor(WalletOf(s, cmd.user), cmd)
      case Err(e) => Err(e)
      case Ok(plan) =>
        var rows := PlanRows(cmd, plan, |s.ledger| + 1);
        var main := rows[|rows| - 1];
        if cmd.child.ArcBundle? && Allocated(cmd.child.items) != -(plan.entry.delta + plan.entry.bonusDelta) then
          Err(InvalidAmount)
        else
          match WriteChild(Post(s, cmd, plan), cmd, main.id, plan.entry)
          case Err(e) => Err(e)
          case Ok(s') => Ok((s', Receipt(main, if |rows| == 2 then Some(rows[0]) else None, plan.result, false)))
  }

  /** The single coin write path, as one transaction: an error leaves the state alone. */
  function Apply(s: State, cmd: Command): Outcome {
    var locked := EnsureWallet(s, cmd.user);
    var replay: Option<Result<Receipt, Error>> := if cmd.key == "" then None else Replay(locked, cmd);
    match replay
    case Some(Ok(receipt)) => Outcome(locked, Ok(receipt))
    case Some(Err(e)) => Outcome(s, Err(e))
    case None =>
      match ApplyFresh(locked, cmd)
      case Err(e) => Outcome(s, Err(e))
      case Ok((s', receipt)) => Outcome(s', Ok(receipt))
  }

  /** The stored answer for a key whatever it was used for: the look-up a bundle makes before it quotes. */
  function ReplayByKey(s: State, user: UserId, key: string): Option<Receipt> {
    if key == "" then None
    else match FindKey(s.ledger, user, key)
         case None => None
         case Some(row) => Some(Receipt(row, None, WalletOf(s, user), true))
  }

  // ----------------------------------------------- the other writers of state

  /** Opening a purchase is idempotent on (user, key). The answer is the row's id. */
  function CreatePurchase(s: State, user: UserId, pack: int, key: string): (State, int) {
    var at := FindPurchase(s.purchases, user, key);
    if key != "" && at > 0 then (s, at)
    else (s.(purchases := s.purchases + [PurchaseRow(user, pack, Pending, key, None)]), |s.purchases| + 1)
  }

  function FindPurchase(purchases: seq<PurchaseRow>, user: UserId, key: string): (id: int)
    ensures 0 <= id <= |purchases|
    ensures id > 0 ==> purchases[id - 1].user == user && purchases[id - 1].key == key
    ensures id == 0 ==> forall p :: p in purchases ==> !(p.user == user && p.key == key)
  {
    if purchases == [] then 0
    else
      var n := |purchases| - 1;
      assert purchases == purchases[..n] + [purchases[n]];
      var earlier := FindPurchase(purchases[..n], user, key);
      if earlier > 0 then earlier
      else if purchases[n].user == user && purchases[n].key == key then n + 1
      else 0
  }

  function FailPurchase(s: State, id: int, user: UserId): (State, Result<PurchaseRow, Error>) {
    if !(1 <= id <= |s.purchases|) || s.purchases[id - 1].user != user then (s, Err(NotFound))
    else if s.purchases[id - 1].status != Pending then (s, Err(PurchaseNotPending))
    else
      var row := s.purchases[id - 1].(status := Failed);
      (s.(purchases := s.purchases[id - 1 := row]), Ok(row))
  }

  // --------------------------------------------------------------------- runs

  /** One transaction of any kind. Catalogue edits are those of translators and subscribers. */
  datatype Event =
    | Coin(cmd: Command)
    | OpenPurchase(user: UserId, pack: int, key: string)
    | AbandonPurchase(id: int, user: UserId)
    | EditCatalog(catalog: Catalog)

  function Step(s: State, e: Event): State {
    match e
    case Coin(cmd) => Apply(s, cmd).state
    case OpenPurchase(user, pack, key) => CreatePurchase(s, user, pack, key).0
    case AbandonPurchase(id, user) => FailPurchase(s, id, user).0
    case EditCatalog(catalog) => s.(catalog := catalog)
  }

  /** The state after a run of transactions, in commit order. */
  function Run(s: State, events: seq<Event>): State {
    if events == [] then s else Step(Run(s, events[..|events| - 1]), events[|events| - 1])
  }

  /** No wallet, no row; any catalogue. */
  function Initial(catalog: Catalog): State {
    State(map[], [], [], [], [], catalog)
  }

  lemma {:induction false} RunAppend(s: State, a: seq<Event>, b: seq<Event>)
    ensures Run(s, a + b) == Run(Run(s, a), b)
  {
    if b == [] {
      assert a + b == a;
    } else {
      assert (a + b)[..|a + b| - 1] == a + b[..|b| - 1];
      RunAppend(s, a, b[..|b| - 1]);
    }
  }
}
