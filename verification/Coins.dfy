/** The vocabulary of the coin economy: ledger kinds, balances, errors. */
module Coins {
  import opened Prelude

  /** An instant, as a count of ticks of the platform clock. */
  type Instant = int

  type UserId = int
  type ChapterId = int

  datatype Kind = Topup | SpendUnlock | Refund | BonusGrant | BonusExpire | Adjust | Tip

  datatype Error =
    | NotFound
    | InvalidAmount
    | InsufficientCoins
    | InsufficientPaidCoins
    | TipsDisabled
    | CannotTipSelf
    | AlreadyUnlocked
    | ChapterNotForSale
    | ArcNotForSale
    | ArcAlreadyOwned
    | BundleStale
    | EarlyAccessOnly
    | PurchaseNotPending
    | PackNotFound
    | IdempotencyConflict

  /** A wallet: purchased coins, promotional coins, and when the latter lapse. */
  datatype Balance = Balance(paid: int, bonus: int, expiresAt: Option<Instant>) {

    /** The deadline has been reached, whether or not the write-off has run. */
    predicate Lapsed(now: Instant) {
      expiresAt.Some? && expiresAt.value <= now
    }

    /** The bonus usable at `now`: a lapsed bonus counts as zero. */
    function EffectiveBonus(now: Instant): int {
      if Lapsed(now) then 0 else bonus
    }

    /** No debt, and no deadline hanging over a bonus that is not there. */
    predicate Healthy() {
      paid >= 0 && bonus >= 0 && (bonus == 0 ==> expiresAt == None)
    }
  }

  const EMPTY_WALLET := Balance(0, 0, None)

  /** The platform keeps `feePercent` of a gross amount, rounded down. */
  function NetCoins(gross: int, feePercent: int): (net: int)
    ensures gross >= 0 ==> 0 <= net <= gross
    ensures feePercent <= 0 ==> net == gross
    ensures feePercent >= 100 ==> net == 0
    ensures gross >= 0 && 0 <= feePercent <= 100 ==>
              gross * (100 - feePercent) <= net * 100 < gross * (100 - feePercent) + 100
  {
    if feePercent <= 0 then gross
    else if feePercent >= 100 then 0
    else gross - TruncDiv(gross * feePercent, 100)
  }
}
