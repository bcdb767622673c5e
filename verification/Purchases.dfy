/** What buying coins comes to: each purchase is worth its pack to its owner, once, over every run of the use cases. */
module Purchases {
  import opened Prelude
  import opened Coins
  import opened Store
  import opened LedgerTotals
  import opened Conservation
  import opened ExactlyOnce
  import opened Postings
  import opened Service

  // ------------------------------------------------------ one completion

  /**
    The wallet after a pack: its coins for good, and its bonus until the lifetime is over. Without a
    lifetime the bonus shares the fate of the one it joins.
   */
  predicate WorthPack(before: Balance, after: Balance, pack: PackRow, ttl: int, now: Instant, later: Instant) {
    && after.paid == before.paid + pack.coins
    && after.EffectiveBonus(later) ==
       if pack.bonusCoins == 0 then before.EffectiveBonus(later)
       else if ttl > 0 then (if later < now + ttl then before.EffectiveBonus(now) + pack.bonusCoins else 0)
       else if before.Lapsed(later) then 0
       else before.bonus + pack.bonusCoins
  }

  /** The purchase's row, and no other, becomes a success that names its ledger row. */
  predicate Completes(before: seq<PurchaseRow>, after: seq<PurchaseRow>, p: int, ledgerId: nat) {
    && 1 <= p <= |before| && before[p - 1].status == Pending
    && after == before[p - 1 := before[p - 1].(status := Succeeded, ledgerId := Some(ledgerId))]
  }

  lemma CompletionMoves(s: State, cmd: Command, pack: PackRow, ttl: int, later: Instant)
    requires cmd.op.kind == Topup && cmd.op.coins == pack.coins && cmd.op.bonusCoins == pack.bonusCoins
    requires cmd.op.bonusTTL == ttl && Applied(s, cmd) && WalletOf(s, cmd.user).Healthy() && cmd.now <= later
    ensures var after := WalletOf(Apply(s, cmd).state, cmd.user);
            WorthPack(WalletOf(s, cmd.user), after, pack, ttl, cmd.now, later) && pack.bonusCoins >= 0
  {
    AppliedMoves(s, cmd, later);
    var plan := ApplyShape(s, cmd);
    assert PlanFor(WalletOf(s, cmd.user), cmd).Ok?;
  }

  lemma AppliedCompletes(s: State, cmd: Command, p: int)
    requires Applied(s, cmd) && cmd.child == PurchaseComplete(p)
    ensures var s' := Apply(s, cmd).state;
            Completes(s.purchases, s'.purchases, p, |s'.ledger|) && s.purchases[p - 1].user == cmd.user
    ensures Apply(s, cmd).state.unlocks == s.unlocks && Apply(s, cmd).state.earnings == s.earnings
  {
    var o := Apply(s, cmd);
    var plan := ApplyShape(s, cmd);
    PostedTables(s, cmd, plan.value, o);
    var posted, ledgerId := PostedChild(s, cmd, plan.value, o);
    ChildRows(posted, cmd, ledgerId, plan.value.entry);
  }

  /**
    A completion built in any earlier state and applied now: the owner's wallet is worth the pack
    that the purchase's row names, in the catalogue that was read, and nobody else's wallet changes.
   */
  lemma CompletionCreditsThePack(read: State, user: UserId, p: int, ttl: int, key: string, now: Instant, s: State,
        later: Instant)
    requires CompletePurchase(read, user, p, ttl, key, now).Ok? && PurchasesAdvance(read, s)
    requires Applied(s, CompletePurchase(read, user, p, ttl, key, now).value) && WalletOf(s, user).Healthy()
    requires now <= later
    ensures 1 <= p <= |s.purchases| && s.purchases[p - 1].user == user
    ensures s.purchases[p - 1].pack in read.catalog.packs
    ensures var s' := Apply(s, CompletePurchase(read, user, p, ttl, key, now).value).state;
            var pack := read.catalog.packs[s.purchases[p - 1].pack];
            && WorthPack(WalletOf(s, user), WalletOf(s', user), pack, ttl, now, later)
            && (forall u :: u != user ==> WalletOf(s', u) == WalletOf(s, u))
            && Completes(s.purchases, s'.purchases, p, |s'.ledger|)
            && s'.unlocks == s.unlocks && s'.earnings == s.earnings
  {
    var cmd := CompletePurchase(read, user, p, ttl, key, now).value;
    assert s.purchases[p - 1].pack == read.purchases[p - 1].pack;
    AppliedMoves(s, cmd, later);
    CompletionMoves(s, cmd, read.catalog.packs[s.purchases[p - 1].pack], ttl, later);
    AppliedCompletes(s, cmd, p);
  }

  /**
    At the moment of the credit the usable bonus rises by exactly the pack's bonus coins, unless the
    lifetime is not positive and an old bonus has lapsed and not been written off.
   */
  lemma BonusIsUsableIff(before: Balance, after: Balance, pack: PackRow, ttl: int, now: Instant)
    requires WorthPack(before, after, pack, ttl, now, now) && before.Healthy() && pack.bonusCoins >= 0
    ensures after.EffectiveBonus(now) == before.EffectiveBonus(now) + pack.bonusCoins
            <==> pack.bonusCoins == 0 || ttl > 0 || !before.Lapsed(now)
  {
  }

  /** Twenty bonus coins bought while a bonus that lapses at six stands: usable until the new lifetime is over. */
  lemma BonusOutlivesTheOldDeadline(s: State, later: Instant)
    requires s.wallets == map[7 := Balance(0, 10, Some(6))] && s.ledger == [] && 5 <= later
    requires s.purchases == [PurchaseRow(7, 3, Pending, "", None)] && s.catalog.packs == map[3 := PackRow(100, 20)]
    ensures var built := CompletePurchase(s, 7, 1, 90, "", 5);
            && built.Ok? && Applied(s, built.value)
            && var after := WalletOf(Apply(s, built.value).state, 7);
               after.paid == 100 && after.EffectiveBonus(later) == if later < 95 then 30 else 0
  {
    var cmd := CompletePurchase(s, 7, 1, 90, "", 5).value;
    assert CheckChild(s, cmd) == None;
    assert Applied(s, cmd);
    CompletionCreditsThePack(s, 7, 1, 90, "", 5, s, later);
  }
}
