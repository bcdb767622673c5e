/** The write path as written: a transaction that changes the tables row by row and rolls back on error. */
module WalletDb {
  import opened Prelude
  import opened Coins
  import opened Spend
  import opened Store
  import opened Conservation

  class Database {
    var wallets: map<UserId, Balance>
    var ledger: seq<LedgerRow>
    var unlocks: seq<UnlockRow>
    var earnings: seq<EarningRow>
    var purchases: seq<PurchaseRow>
    var catalog: Catalog

    /** The tables as one value. */
    function Snapshot(): State
      reads this
    {
      State(wallets, ledger, unlocks, earnings, purchases, catalog)
    }

    constructor (catalog: Catalog)
      ensures Snapshot() == Initial(catalog)
    {
      wallets, ledger, unlocks, earnings, purchases := map[], [], [], [], [];
      this.catalog := catalog;
    }

    method Rollback(to: State)
      modifies this
      ensures Snapshot() == to
    {
      wallets, ledger, unlocks, earnings, purchases, catalog :=
        to.wallets, to.ledger, to.unlocks, to.earnings, to.purchases, to.catalog;
    }

    /** The re-check of a bundle under the lock: ids, ownership, one row per id, then item by item. */
    method CheckBundle(cmd: Command, items: seq<Item>) returns (err: Option<Error>)
      requires cmd.child == ArcBundle(items)
      ensures err == CheckChild(Snapshot(), cmd)
    {
      var ids: seq<ChapterId> := [];
      for i := 0 to |items|
        invariant ids == ItemIds(items)[..i]
      {
        ids := ids + [items[i].chapter];
      }
      assert ids == ItemIds(items);
      if |ids| == 0 {
        return Some(ArcAlreadyOwned);
      }
      if exists id | id in ids :: Owns(unlocks, cmd.user, id) {
        return Some(BundleStale);
      }
      var rows := ChaptersIn(catalog.chapters, ids);
      if |rows| != |ids| {
        return Some(BundleStale);
      }
      for i := 0 to |items|
        invariant forall j :: 0 <= j < i ==> StillAsQuoted(rows, items[j])
      {
        if !StillAsQuoted(rows, items[i]) {
          assert items[i] in items;
          return Some(BundleStale);
        }
      }
      return None;
    }

    method CheckChildPreconditions(cmd: Command) returns (err: Option<Error>)
      ensures err == CheckChild(Snapshot(), cmd)
    {
      match cmd.child {
        case ChapterUnlock(chapter, _, _) =>
          if Owns(unlocks, cmd.user, chapter) {
            return Some(AlreadyUnlocked);
          }
        case PurchaseComplete(p) =>
          if !(1 <= p <= |purchases|) {
            return Some(NotFound);
          }
          var purchase := purchases[p - 1];
          if purchase.user != cmd.user {
            return Some(NotFound);
          }
          if purchase.status != Pending {
            return Some(PurchaseNotPending);
          }
        case ArcBundle(items) =>
          err := CheckBundle(cmd, items);
          return;
        case TipChild(_, _, _) =>
        case NoChild =>
      }
      return None;
    }

    /** One row per bundle item, and one earning per credited item, all naming one ledger row. */
    method WriteBundle(cmd: Command, items: seq<Item>, ledgerId: nat, ghost entry: Entry) returns (err: Option<Error>)
      requires cmd.child == ArcBundle(items)
      modifies `unlocks, `earnings
      ensures match WriteChild(old(Snapshot()), cmd, ledgerId, entry)
              case Ok(s) => err == None && Snapshot() == s
              case Err(e) => err == Some(e)
    {
      var newUnlocks: seq<UnlockRow> := [];
      var newEarnings: seq<EarningRow> := [];
      for i := 0 to |items|
        invariant newUnlocks == ItemUnlocks(cmd, items[..i], ledgerId)
        invariant newEarnings == ItemEarnings(cmd, items[..i], ledgerId)
      {
        var item := items[i];
        assert items[..i + 1][..i] == items[..i];
        newUnlocks := newUnlocks + [UnlockRow(cmd.user, item.chapter, ToInt16(item.coins), ledgerId, cmd.now)];
        if item.writer != 0 {
          newEarnings := newEarnings
            + [EarningRow(item.writer, item.chapter, ledgerId, item.coins, item.net, EarningUnlock, cmd.now)];
        }
      }
      assert items[..|items|] == items;
      match InsertUnlocks(unlocks, newUnlocks)
      case None =>
        return Some(BundleStale);
      case Some(stored) =>
        unlocks := stored;
        earnings := earnings + newEarnings;
        return None;
    }

    method WriteChildRows(cmd: Command, ledgerId: nat, entry: Entry) returns (err: Option<Error>)
      modifies `unlocks, `earnings, `purchases
      ensures match WriteChild(old(Snapshot()), cmd, ledgerId, entry)
              case Ok(s) => err == None && Snapshot() == s
              case Err(e) => err == Some(e)
    {
      var spent := -(entry.delta + entry.bonusDelta);
      match cmd.child {
        case ChapterUnlock(chapter, writer, net) =>
          match InsertUnlocks(unlocks, [UnlockRow(cmd.user, chapter, ToInt16(spent), ledgerId, cmd.now)]) {
            case None =>
              return Some(AlreadyUnlocked);
            case Some(stored) =>
              unlocks := stored;
          }
          if writer != 0 {
            earnings := earnings + [EarningRow(writer, chapter, ledgerId, spent, net, EarningUnlock, cmd.now)];
          } else {
            assert earnings + [] == earnings;
          }
        case PurchaseComplete(p) =>
          if !(1 <= p <= |purchases|) || purchases[p - 1].status != Pending {
            return Some(PurchaseNotPending);
          }
          purchases := purchases[p - 1 := purchases[p - 1].(status := Succeeded, ledgerId := Some(ledgerId))];
        case ArcBundle(items) =>
          err := WriteBundle(cmd, items, ledgerId, entry);
          return;
        case TipChild(chapter, writer, net) =>
          if writer == 0 {
            return Some(NotFound);
          }
          earnings := earnings + [EarningRow(writer, chapter, ledgerId, spent, net, EarningTip, cmd.now)];
        case NoChild =>
      }
      return None;
    }

    /** The sum of what a bundle says its chapters cost. */
    method AllocatedCoins(items: seq<Item>) returns (coins: int)
      ensures coins == Allocated(items)
    {
      coins := 0;
      for i := 0 to |items|
        invariant coins == Allocated(items[..i])
      {
        assert items[..i + 1][..i] == items[..i];
        coins := coins + items[i].coins;
      }
      assert items[..|items|] == items;
    }

    /**
      Writes the ledger rows of a plan and the new balance. A used key was answered before, so the
      index cannot object.
     */
    method PostPlan(cmd: Command, plan: Plan) returns (main: LedgerRow, expiry: Option<LedgerRow>)
      requires cmd.key != "" ==> FindKey(ledger, cmd.user, cmd.key) == None
      modifies `ledger, `wallets
      ensures Snapshot() == Post(old(Snapshot()), cmd, plan)
      ensures var rows := PlanRows(cmd, plan, |old(ledger)| + 1);
              main == rows[|rows| - 1] && expiry == if |rows| == 2 then Some(rows[0]) else None
    {
      ghost var before := ledger;
      expiry := None;
      if plan.expiry.Some? {
        var row := ToLedgerRow(cmd, plan.expiry.value, "", |ledger| + 1);
        ledger := ledger + [row];
        expiry := Some(row);
      }
      main := ToLedgerRow(cmd, plan.entry, cmd.key, |ledger| + 1);
      if cmd.key != "" {
        KeyBackstopIsDead(Snapshot().(ledger := before), cmd, plan);
        ghost var rows := PlanRows(cmd, plan, |before| + 1);
        assert ledger == before + rows[..|rows| - 1];
        if FindKey(ledger, cmd.user, cmd.key).Some? {
          assert false;
        }
      }
      ledger := ledger + [main];
      wallets := wallets[cmd.user := plan.result];
    }

    /** The single coin write path. */
    method Apply(cmd: Command) returns (r: Result<Receipt, Error>)
      modifies this
      ensures Outcome(Snapshot(), r) == Store.Apply(old(Snapshot()), cmd)
    {
      var before := Snapshot();
      if cmd.user !in wallets {
        wallets := wallets[cmd.user := EMPTY_WALLET];
      }
      if cmd.key != "" {
        match Replay(Snapshot(), cmd) {
          case None =>
          case Some(answer) =>
            if answer.Err? {
              Rollback(before);
            }
            return answer;
        }
      }
      r := ApplyLocked(cmd);
      if r.Err? {
        Rollback(before);
      }
    }

    /** The steps under the wallet lock, for a key not seen before. After an error the tables are to be rolled back. */
    method ApplyLocked(cmd: Command) returns (r: Result<Receipt, Error>)
      requires cmd.user in wallets
      requires cmd.key != "" ==> FindKey(ledger, cmd.user, cmd.key) == None
      modifies this
      ensures match ApplyFresh(old(Snapshot()), cmd)
              case Ok(done) => r == Ok(done.1) && Snapshot() == done.0
              case Err(e) => r == Err(e)
    {
      var refusal := CheckChildPreconditions(cmd);
      if refusal.Some? {
        return Err(refusal.value);
      }
      var planned := PlanFor(wallets[cmd.user], cmd);
      if planned.Err? {
        return Err(planned.error);
      }
      var plan := planned.value;
      var main, expiry := PostPlan(cmd, plan);
      if cmd.child.ArcBundle? {
        var coins := AllocatedCoins(cmd.child.items);
        if coins != -(plan.entry.delta + plan.entry.bonusDelta) {
          return Err(InvalidAmount);
        }
      }
      var failure := WriteChildRows(cmd, main.id, plan.entry);
      if failure.Some? {
        return Err(failure.value);
      }
      return Ok(Receipt(main, expiry, plan.result, false));
    }

    /** The settlement that loses: pending to failed, and nothing else. */
    method Fail(id: int, user: UserId) returns (r: Result<PurchaseRow, Error>)
      modifies `purchases
      ensures (Snapshot(), r) == FailPurchase(old(Snapshot()), id, user)
    {
      if 1 <= id <= |purchases| && purchases[id - 1].user == user && purchases[id - 1].status == Pending {
        purchases := purchases[id - 1 := purchases[id - 1].(status := Failed)];
        return Ok(purchases[id - 1]);
      }
      if !(1 <= id <= |purchases|) || purchases[id - 1].user != user {
        return Err(NotFound);
      }
      return Err(PurchaseNotPending);
    }
  }
}
