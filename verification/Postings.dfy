/**
  What an applied command means, said without the planners: the coins it moves, how long a bonus
  stays usable, the ledger row it leaves, and that nobody else's wallet changes.
 */
module Postings {
  import opened Prelude
  import opened Coins
  import opened Spend
  import opened Store
  import opened LedgerTotals

  /** The command was applied now, not answered from an earlier time. */
  predicate Applied(s: State, cmd: Command) {
    Apply(s, cmd).result.Ok? && !Apply(s, cmd).result.value.replayed
  }

  /** The coins that move, by the kind of the operation, as its user sees them at the time. */
  predicate MovesCoins(before: Balance, after: Balance, op: Operation, now: Instant) {
    match op.kind
    case SpendUnlock =>
      && op.amount > 0
      && after.paid + after.EffectiveBonus(now) == before.paid + before.EffectiveBonus(now) - op.amount
      && after.paid <= before.paid && after.EffectiveBonus(now) <= before.EffectiveBonus(now)
      && (after.paid < before.paid ==> after.EffectiveBonus(now) == 0)
    case Tip => op.amount > 0 && after.paid == before.paid - op.amount
    case Topup | BonusGrant | Refund => after.paid == before.paid + op.coins
    case Adjust => after.paid == before.paid + op.delta && after.bonus == before.bonus + op.bonusDelta
    case BonusExpire => before.Lapsed(now) && before.bonus > 0 && after == Balance(before.paid, 0, None)
  }

  /** The bonus that can be used at a later time. */
  predicate BonusLasts(before: Balance, after: Balance, op: Operation, now: Instant, later: Instant) {
    match op.kind
    case SpendUnlock => after.EffectiveBonus(later) == KeptUntil(before, after.EffectiveBonus(now), later)
    case Tip => after.EffectiveBonus(later) == before.EffectiveBonus(later)
    case Topup | BonusGrant | Refund =>
      after.EffectiveBonus(later) ==
      if op.bonusCoins > 0 && op.bonusTTL > 0
      then (if later < now + op.bonusTTL then before.EffectiveBonus(now) + op.bonusCoins else 0)
      else KeptUntil(before, before.bonus + op.bonusCoins, later)
    case Adjust => after.EffectiveBonus(later) == KeptUntil(before, before.bonus + op.bonusDelta, later)
    case BonusExpire => after.EffectiveBonus(later) == 0
  }

  lemma PlanMoves(bal: Balance, cmd: Command, plan: Plan)
    requires bal.Healthy() && PlanFor(bal, cmd) == Ok(plan)
    ensures MovesCoins(bal, plan.result, cmd.op, cmd.now) && plan.result.Healthy()
  {
  }

  lemma PlanLasts(bal: Balance, cmd: Command, plan: Plan, later: Instant)
    requires bal.Healthy() && PlanFor(bal, cmd) == Ok(plan) && cmd.now <= later
    ensures BonusLasts(bal, plan.result, cmd.op, cmd.now, later)
  {
    var op := cmd.op;
    match op.kind
    case SpendUnlock => SpendKeepsTheDeadline(bal, op.amount, cmd.now, later);
    case Tip => TipLeavesTheBonus(bal, op.amount, cmd.now, later);
    case Topup | BonusGrant | Refund =>
      if op.bonusCoins > 0 && op.bonusTTL > 0 {
        CreditRenewsTheDeadline(bal, op.coins, op.bonusCoins, op.bonusTTL, cmd.now, later);
      } else {
        CreditKeepsTheDeadline(bal, op.coins, op.bonusCoins, op.bonusTTL, cmd.now, later);
      }
    case Adjust => AdjustKeepsTheDeadline(bal, op.delta, op.bonusDelta, later);
    case BonusExpire =>
  }

  /**
    One applied operation of any kind: the coins moved, the bonus usable at every later time, every
    other wallet and the catalogue as they were, and a receipt that shows the new balance.
   */
  lemma AppliedMoves(s: State, cmd: Command, later: Instant)
    requires Applied(s, cmd) && WalletOf(s, cmd.user).Healthy() && cmd.now <= later
    ensures var s' := Apply(s, cmd).state;
            && MovesCoins(WalletOf(s, cmd.user), WalletOf(s', cmd.user), cmd.op, cmd.now)
            && BonusLasts(WalletOf(s, cmd.user), WalletOf(s', cmd.user), cmd.op, cmd.now, later)
            && (forall u :: u != cmd.user ==> WalletOf(s', u) == WalletOf(s, u))
            && s'.catalog == s.catalog && Apply(s, cmd).result.value.balance == WalletOf(s', cmd.user)
  {
    var o := Apply(s, cmd);
    var plan := ApplyShape(s, cmd);
    PostedTables(s, cmd, plan.value, o);
    PlanMoves(WalletOf(s, cmd.user), cmd, plan.value);
    PlanLasts(WalletOf(s, cmd.user), cmd, plan.value, later);
  }

  /** What a ledger row must say about the command it was written for. */
  predicate Records(row: LedgerRow, cmd: Command, before: Balance, after: Balance) {
    && row.user == cmd.user && row.kind == cmd.op.kind && row.refType == cmd.op.refType && row.refId == cmd.op.refId
    && row.reason == cmd.reason && row.actor == cmd.actor && row.key == cmd.key && row.createdAt == cmd.now
    && row.delta == after.paid - before.paid && row.balanceAfter == after.paid && row.bonusAfter == after.bonus
  }

  /** The row written off beforehand: all of a lapsed bonus, without a key of its own. */
  predicate RecordsWriteOff(row: LedgerRow, cmd: Command, before: Balance) {
    && row.user == cmd.user && row.kind == BonusExpire && row.key == "" && row.createdAt == cmd.now
    && row.refType == cmd.op.refType && row.refId == cmd.op.refId
    && row.reason == cmd.reason && row.actor == cmd.actor
    && row.delta == 0 && row.bonusDelta == -before.bonus && row.balanceAfter == before.paid && row.bonusAfter == 0
  }

  lemma MainRowRecords(bal: Balance, cmd: Command, plan: Plan, id: nat)
    requires bal.Healthy() && PlanFor(bal, cmd) == Ok(plan)
    ensures Records(ToLedgerRow(cmd, plan.entry, cmd.key, id), cmd, bal, plan.result)
    ensures plan.entry.bonusDelta == plan.result.bonus - (if plan.expiry.Some? then 0 else bal.bonus)
  {
  }

  lemma WriteOffRecords(bal: Balance, cmd: Command, plan: Plan, id: nat)
    requires bal.Healthy() && PlanFor(bal, cmd) == Ok(plan)
    ensures plan.expiry.Some? <==> WritesOffFirst(bal, cmd)
    ensures plan.expiry.Some? ==> RecordsWriteOff(ToLedgerRow(cmd, plan.expiry.value, "", id), cmd, bal)
  {
  }

  /** A lapsed bonus still on the books is written off before anything but a correction or the write-off itself. */
  predicate WritesOffFirst(bal: Balance, cmd: Command) {
    cmd.op.kind != Adjust && cmd.op.kind != BonusExpire && ExpiresFirst(bal, cmd.now)
  }

  lemma PlanRecords(bal: Balance, cmd: Command, plan: Plan, next: nat)
    requires bal.Healthy() && PlanFor(bal, cmd) == Ok(plan)
    ensures var rows := PlanRows(cmd, plan, next);
            && Records(rows[|rows| - 1], cmd, bal, plan.result)
            && |rows| == (if WritesOffFirst(bal, cmd) then 2 else 1)
            && (WritesOffFirst(bal, cmd) ==> RecordsWriteOff(rows[0], cmd, bal))
            && rows[|rows| - 1].bonusDelta == plan.result.bonus - (if |rows| == 2 then 0 else bal.bonus)
  {
    MainRowRecords(bal, cmd, plan, if plan.expiry.Some? then next + 1 else next);
    WriteOffRecords(bal, cmd, plan, next);
  }

  /**
    The ledger of an applied operation: a write-off row exactly when a lapsed bonus stood in the way,
    then the row that records the command in full, which the receipt shows.
   */
  lemma AppliedRecords(s: State, cmd: Command)
    requires Applied(s, cmd) && WalletOf(s, cmd.user).Healthy()
    ensures var s' := Apply(s, cmd).state;
            var before, after := WalletOf(s, cmd.user), WalletOf(s', cmd.user);
            var first := WritesOffFirst(before, cmd);
            && |s'.ledger| == |s.ledger| + (if first then 2 else 1) && s.ledger <= s'.ledger
            && (first ==> RecordsWriteOff(s'.ledger[|s.ledger|], cmd, before))
            && Records(s'.ledger[|s'.ledger| - 1], cmd, before, after)
            && s'.ledger[|s'.ledger| - 1].bonusDelta == after.bonus - (if first then 0 else before.bonus)
            && Apply(s, cmd).result.value.ledger == s'.ledger[|s'.ledger| - 1]
  {
    var o := Apply(s, cmd);
    var plan := ApplyShape(s, cmd);
    PostedTables(s, cmd, plan.value, o);
    PostedReceipt(s, cmd, plan.value, o);
    PlanRecords(WalletOf(s, cmd.user), cmd, plan.value, |s.ledger| + 1);
    RowsAtTheEnd(s.ledger, PlanRows(cmd, plan.value, |s.ledger| + 1), o.state.ledger);
  }

  lemma RowsAtTheEnd(ledger: seq<LedgerRow>, rows: seq<LedgerRow>, all: seq<LedgerRow>)
    requires all == ledger + rows && 1 <= |rows| <= 2
    ensures all[|all| - 1] == rows[|rows| - 1] && all[|ledger|] == rows[0] && ledger <= all
  {
  }
}
