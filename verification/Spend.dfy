/** The planners: each maps a balance to the complete set of ledger entries one coin operation writes. */
module Spend {
  import opened Prelude
  import opened Coins

  datatype Entry = Entry(delta: int, bonusDelta: int, kind: Kind, balanceAfter: int, bonusAfter: int)

  /** `expiry` is the write-off that must precede the main entry, when there is one. */
  datatype Plan = Plan(expiry: Option<Entry>, entry: Entry, result: Balance)

  // ------------------------------------------------- what makes a plan correct

  /** The entry moves the totals (paid, bonus) to the totals it records. */
  predicate Carries(entry: Entry, paid: int, bonus: int) {
    entry.balanceAfter == paid + entry.delta && entry.bonusAfter == bonus + entry.bonusDelta
  }

  /** The write-off of everything a lapsed bonus holds. */
  predicate WritesOff(entry: Entry, bal: Balance) {
    entry.kind == BonusExpire && entry.delta == 0 && entry.bonusDelta == -bal.bonus
      && Carries(entry, bal.paid, bal.bonus)
  }

  /**
    The entries of a plan, read in order from `bal`, form a running total that ends at
    the plan's result, which is itself a balance that may be stored.
   */
  predicate Sound(bal: Balance, plan: Plan) {
    && (plan.expiry.Some? ==> WritesOff(plan.expiry.value, bal))
    && Carries(plan.entry, bal.paid, if plan.expiry.Some? then 0 else bal.bonus)
    && plan.result.paid == plan.entry.balanceAfter
    && plan.result.bonus == plan.entry.bonusAfter
    && plan.result.Healthy()
  }

  /** Writing off first happens exactly when a lapsed bonus still holds coins. */
  predicate ExpiresFirst(bal: Balance, now: Instant) {
    bal.Lapsed(now) && bal.bonus > 0
  }

  function WriteOff(bal: Balance): Entry {
    Entry(0, -bal.bonus, BonusExpire, bal.paid, 0)
  }

  // ------------------------------------------------------------- the planners

  /** A debit that spends bonus coins before paid coins. */
  function PlanSpend(bal: Balance, amount: int, now: Instant): (r: Result<Plan, Error>)
    ensures bal.Healthy() ==>
              (r.Ok? <==> amount > 0 && bal.paid + bal.EffectiveBonus(now) >= amount)
    ensures r.Err? ==> r.error == if amount <= 0 then InvalidAmount else InsufficientCoins
    ensures r.Ok? && bal.Healthy() ==>
              && Sound(bal, r.value)
              && (r.value.expiry.Some? <==> ExpiresFirst(bal, now))
              && r.value.entry.kind == SpendUnlock
              && r.value.entry.delta <= 0 && r.value.entry.bonusDelta <= 0
              && r.value.entry.delta + r.value.entry.bonusDelta == -amount
              && (r.value.entry.delta < 0 ==> r.value.result.bonus == 0)
  {
    if amount <= 0 then Err(InvalidAmount)
    else
      var lapsed := bal.Lapsed(now);
      var effective := if lapsed then 0 else bal.bonus;
      var expiry := if lapsed && bal.bonus > 0 then Some(WriteOff(bal)) else None;
      if effective + bal.paid < amount then Err(InsufficientCoins)
      else
        var fromBonus := if effective < amount then effective else amount;
        var fromPaid := amount - fromBonus;
        var bonusAfter := effective - fromBonus;
        var expiresAt := if lapsed || bonusAfter == 0 then None else bal.expiresAt;
        Ok(Plan(expiry,
                Entry(-fromPaid, -fromBonus, SpendUnlock, bal.paid - fromPaid, bonusAfter),
                Balance(bal.paid - fromPaid, bonusAfter, expiresAt)))
  }

  /** A debit from the paid side, whatever bonus there is. */
  function PlanSpendPaidOnly(bal: Balance, amount: int, now: Instant): (r: Result<Plan, Error>)
    ensures r.Ok? <==> amount > 0 && bal.paid >= amount
    ensures r.Err? ==> r.error == if amount <= 0 then InvalidAmount else InsufficientPaidCoins
    ensures r.Ok? && bal.Healthy() ==>
              && Sound(bal, r.value)
              && (r.value.expiry.Some? <==> ExpiresFirst(bal, now))
              && r.value.entry.kind == Tip
              && r.value.entry.delta == -amount && r.value.entry.bonusDelta == 0
  {
    if amount <= 0 then Err(InvalidAmount)
    else
      var lapsed := bal.Lapsed(now);
      var bonusAfter := if lapsed then 0 else bal.bonus;
      var expiresAt := if lapsed then None else bal.expiresAt;
      var expiry := if lapsed && bal.bonus > 0 then Some(WriteOff(bal)) else None;
      if bal.paid < amount then Err(InsufficientPaidCoins)
      else
        Ok(Plan(expiry,
                Entry(-amount, 0, Tip, bal.paid - amount, bonusAfter),
                Balance(bal.paid - amount, bonusAfter, expiresAt)))
  }

  /** A top-up. A surviving bonus has its deadline extended. */
  function PlanCredit(bal: Balance, coins: int, bonusCoins: int, ttl: int, now: Instant): (r: Result<Plan, Error>)
    ensures r.Ok? <==> coins >= 0 && bonusCoins >= 0 && coins + bonusCoins > 0
    ensures r.Err? ==> r.error == InvalidAmount
    ensures r.Ok? && bal.Healthy() ==>
              && Sound(bal, r.value)
              && (r.value.expiry.Some? <==> ExpiresFirst(bal, now))
              && r.value.entry.kind == Topup
              && r.value.entry.delta == coins && r.value.entry.bonusDelta == bonusCoins
              && r.value.result.expiresAt ==
                 (if r.value.result.bonus == 0 then None
                  else if bonusCoins > 0 && ttl > 0 then Some(now + ttl)
                  else bal.expiresAt)
  {
    if coins < 0 || bonusCoins < 0 || coins + bonusCoins <= 0 then Err(InvalidAmount)
    else
      var lapsed := bal.Lapsed(now);
      var effective := if lapsed then 0 else bal.bonus;
      var expiry := if lapsed && bal.bonus > 0 then Some(WriteOff(bal)) else None;
      var bonusAfter := effective + bonusCoins;
      var expiresAt :=
        if bonusAfter == 0 then None
        else if bonusCoins > 0 && ttl > 0 then Some(now + ttl)
        else bal.expiresAt;
      Ok(Plan(expiry,
              Entry(coins, bonusCoins, Topup, bal.paid + coins, bonusAfter),
              Balance(bal.paid + coins, bonusAfter, expiresAt)))
  }

  /** An administrative correction, signed in either direction. It does not look at the deadline. */
  function PlanAdjust(bal: Balance, delta: int, bonusDelta: int): (r: Result<Plan, Error>)
    ensures r.Ok? <==> (delta != 0 || bonusDelta != 0) && bal.paid + delta >= 0 && bal.bonus + bonusDelta >= 0
    ensures r.Err? ==> r.error == if delta == 0 && bonusDelta == 0 then InvalidAmount else InsufficientCoins
    ensures r.Ok? && bal.Healthy() ==>
              && Sound(bal, r.value)
              && r.value.expiry == None
              && r.value.entry.kind == Adjust
              && r.value.entry.delta == delta && r.value.entry.bonusDelta == bonusDelta
  {
    if delta == 0 && bonusDelta == 0 then Err(InvalidAmount)
    else if bal.paid + delta < 0 || bal.bonus + bonusDelta < 0 then Err(InsufficientCoins)
    else
      var bonusAfter := bal.bonus + bonusDelta;
      Ok(Plan(None,
              Entry(delta, bonusDelta, Adjust, bal.paid + delta, bonusAfter),
              Balance(bal.paid + delta, bonusAfter, if bonusAfter == 0 then None else bal.expiresAt)))
  }

  /** The nightly write-off, or None when there is nothing to expire. */
  function PlanBonusExpiry(bal: Balance, now: Instant): (r: Option<Plan>)
    ensures bal.Healthy() ==> (r.Some? <==> ExpiresFirst(bal, now))
    ensures r.Some? && bal.Healthy() ==>
              && Sound(bal, r.value)
              && r.value.expiry == None
              && WritesOff(r.value.entry, bal)
              && r.value.result == Balance(bal.paid, 0, None)
  {
    if !bal.Lapsed(now) || bal.bonus == 0 then None
    else Some(Plan(None, WriteOff(bal), Balance(bal.paid, 0, None)))
  }

  // ------------------------------------------------------- how long a bonus lasts

  /** What a reader can spend of a bonus at any later time, when it shrinks or grows but keeps its deadline. */
  function KeptUntil(bal: Balance, coins: int, later: Instant): int {
    if bal.Lapsed(later) then 0 else coins
  }

  /** What a purchase leaves of a bonus stays usable exactly as long as before. */
  lemma SpendKeepsTheDeadline(bal: Balance, amount: int, now: Instant, later: Instant)
    requires bal.Healthy() && now <= later && PlanSpend(bal, amount, now).Ok?
    ensures var p := PlanSpend(bal, amount, now).value;
            p.result.EffectiveBonus(later) == KeptUntil(bal, bal.EffectiveBonus(now) + p.entry.bonusDelta, later)
  {
  }

  /** A tip changes nothing about the bonus that anyone can see. */
  lemma TipLeavesTheBonus(bal: Balance, amount: int, now: Instant, later: Instant)
    requires bal.Healthy() && now <= later && PlanSpendPaidOnly(bal, amount, now).Ok?
    ensures PlanSpendPaidOnly(bal, amount, now).value.result.EffectiveBonus(later) == bal.EffectiveBonus(later)
  {
  }

  /**
    A credit with a bonus and a lifetime makes the whole bonus usable from now until the lifetime
    is over, and not a tick longer, whatever deadline the old bonus had.
   */
  lemma CreditRenewsTheDeadline(bal: Balance, coins: int, bonusCoins: int, ttl: int, now: Instant, later: Instant)
    requires bal.Healthy() && now <= later && PlanCredit(bal, coins, bonusCoins, ttl, now).Ok?
    requires bonusCoins > 0 && ttl > 0
    ensures PlanCredit(bal, coins, bonusCoins, ttl, now).value.result.EffectiveBonus(later)
              == if later < now + ttl then bal.EffectiveBonus(now) + bonusCoins else 0
  {
  }

  /** A credit without a bonus leaves the old one as it was; a bonus without a lifetime joins the old deadline. */
  lemma CreditKeepsTheDeadline(bal: Balance, coins: int, bonusCoins: int, ttl: int, now: Instant, later: Instant)
    requires bal.Healthy() && now <= later && PlanCredit(bal, coins, bonusCoins, ttl, now).Ok?
    requires bonusCoins == 0 || ttl <= 0
    ensures PlanCredit(bal, coins, bonusCoins, ttl, now).value.result.EffectiveBonus(later)
              == KeptUntil(bal, bal.bonus + bonusCoins, later)
  {
  }

  /** A correction changes the stored bonus and leaves its deadline. */
  lemma AdjustKeepsTheDeadline(bal: Balance, delta: int, bonusDelta: int, later: Instant)
    requires bal.Healthy() && PlanAdjust(bal, delta, bonusDelta).Ok?
    ensures PlanAdjust(bal, delta, bonusDelta).value.result.EffectiveBonus(later)
              == KeptUntil(bal, bal.bonus + bonusDelta, later)
  {
  }
}
