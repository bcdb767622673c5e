/** The write path's answer to a command with a new key, read off the rows: what goes through, or which error. */
module Answers {
  import opened Prelude
  import opened Coins
  import opened Store
  import opened LedgerTotals
  import opened Postings
  import opened StaleReads

  /** Refused with this error, and nothing changed. */
  predicate Refused(s: State, cmd: Command, e: Error) {
    Apply(s, cmd) == Outcome(s, Err(e))
  }

  predicate Covers(bal: Balance, amount: int, now: Instant) {
    bal.paid + bal.EffectiveBonus(now) >= amount
  }

  /** One chapter: refused when it is owned already or the wallet does not cover it, and otherwise sold. */
  lemma UnlockIsAnswered(s: State, cmd: Command, chapter: ChapterId)
    requires Spends(cmd) && cmd.child.ChapterUnlock? && cmd.child.chapter == chapter
    requires NewKey(s, cmd) && WalletOf(s, cmd.user).Healthy()
    ensures if Owns(s.unlocks, cmd.user, chapter) then Refused(s, cmd, AlreadyUnlocked)
            else if !Covers(WalletOf(s, cmd.user), cmd.op.amount, cmd.now) then Refused(s, cmd, InsufficientCoins)
            else Applied(s, cmd)
  {
    SpendGoesThroughIff(s, cmd);
    EmptyRowIsInvisible(s, cmd);
  }

  /** Everything a quote assumed still holds: each chapter once, published, at its price and not owned. */
  ghost predicate Current(s: State, user: UserId, items: seq<Item>) {
    && (forall i, j :: 0 <= i < j < |items| ==> items[i].chapter != items[j].chapter)
    && forall item :: item in items ==>
         && item.chapter in s.catalog.chapters && s.catalog.chapters[item.chapter].status == Published
         && s.catalog.chapters[item.chapter].price == item.listPrice && !Owns(s.unlocks, user, item.chapter)
  }

  lemma CurrentPasses(s: State, cmd: Command)
    requires cmd.child.ArcBundle? && cmd.child.items != [] && Current(s, cmd.user, cmd.child.items)
    ensures CheckChild(s, cmd) == None
  {
    var items := cmd.child.items;
    var ids := ItemIds(items);
    var rows := ChaptersIn(s.catalog.chapters, ids);
    forall id | id in ids
      ensures id in s.catalog.chapters && !Owns(s.unlocks, cmd.user, id)
    {
      var i :| 0 <= i < |ids| && ids[i] == id;
      assert items[i] in items;
    }
    assert forall i, j :: 0 <= i < j < |ids| ==> ids[i] != ids[j];
    DistinctByCount(ids);
    assert rows.Keys == Elements(ids);
    forall item | item in items
      ensures StillAsQuoted(rows, item)
    {
      var i :| 0 <= i < |items| && items[i] == item;
      assert ids[i] in ids;
    }
  }

  lemma PassesAsCurrent(s: State, cmd: Command)
    requires cmd.child.ArcBundle? && CheckChild(s, cmd) == None
    ensures Current(s, cmd.user, cmd.child.items) && cmd.child.items != []
  {
    Service.BundleHolds(s, cmd);
    var items, ids := cmd.child.items, ItemIds(cmd.child.items);
    forall i, j | 0 <= i < j < |items|
      ensures items[i].chapter != items[j].chapter
    {
      assert ids[i] != ids[j];
    }
  }

  /** A bundle: stale as soon as one thing it was quoted on has changed. */
  lemma BundleIsAnswered(s: State, cmd: Command, items: seq<Item>)
    requires Spends(cmd) && cmd.child == ArcBundle(items) && items != []
    requires NewKey(s, cmd) && WalletOf(s, cmd.user).Healthy()
    ensures if !Current(s, cmd.user, items) then Refused(s, cmd, BundleStale)
            else if !Covers(WalletOf(s, cmd.user), cmd.op.amount, cmd.now) then Refused(s, cmd, InsufficientCoins)
            else Applied(s, cmd)
  {
    SpendGoesThroughIff(s, cmd);
    EmptyRowIsInvisible(s, cmd);
    if Current(s, cmd.user, items) {
      CurrentPasses(s, cmd);
    } else if CheckChild(s, cmd) == None {
      PassesAsCurrent(s, cmd);
    }
  }

  /** A tip: purchased coins must cover it, whatever bonus there is. */
  lemma TipIsAnswered(s: State, cmd: Command)
    requires cmd.op.kind == Tip && cmd.op.amount > 0 && cmd.child.TipChild? && cmd.child.writer != 0 && NewKey(s, cmd)
    ensures if WalletOf(s, cmd.user).paid < cmd.op.amount then Refused(s, cmd, InsufficientPaidCoins)
            else Applied(s, cmd)
  {
    EmptyRowIsInvisible(s, cmd);
  }

  /** A completion: its purchase must be there, the caller's own, and pending. */
  lemma CompletionIsAnswered(s: State, cmd: Command, p: int)
    requires cmd.op.kind == Topup && cmd.child == PurchaseComplete(p) && NewKey(s, cmd)
    ensures if !(1 <= p <= |s.purchases|) || s.purchases[p - 1].user != cmd.user then Refused(s, cmd, NotFound)
            else if s.purchases[p - 1].status != Pending then Refused(s, cmd, PurchaseNotPending)
            else if cmd.op.coins < 0 || cmd.op.bonusCoins < 0 || cmd.op.coins + cmd.op.bonusCoins == 0
            then Refused(s, cmd, InvalidAmount)
            else Applied(s, cmd)
  {
    EmptyRowIsInvisible(s, cmd);
  }

  /** A correction: it must move something and leave nothing negative. */
  lemma CorrectionIsAnswered(s: State, cmd: Command)
    requires cmd.op.kind == Adjust && cmd.child == NoChild && NewKey(s, cmd)
    ensures if cmd.op.delta == 0 && cmd.op.bonusDelta == 0 then Refused(s, cmd, InvalidAmount)
            else if WalletOf(s, cmd.user).paid + cmd.op.delta < 0 || WalletOf(s, cmd.user).bonus + cmd.op.bonusDelta < 0
            then Refused(s, cmd, InsufficientCoins)
            else Applied(s, cmd)
  {
    EmptyRowIsInvisible(s, cmd);
  }

  // ------------------------------------------------------ opening and abandoning

  /** Opening appends one pending row with what was asked for, unless the key names one already. */
  lemma OpeningIsExact(s: State, user: UserId, pack: int, key: string)
    ensures var (s', id) := CreatePurchase(s, user, pack, key);
            && 1 <= id <= |s'.purchases| && s'.purchases[id - 1].user == user && s'.purchases[id - 1].key == key
            && s' == s.(purchases := s'.purchases)
            && if key != "" && exists p :: p in s.purchases && p.user == user && p.key == key
               then s' == s
               else id == |s.purchases| + 1
                    && s'.purchases == s.purchases + [PurchaseRow(user, pack, Pending, key, None)]
  {
  }

  /** Abandoning turns the caller's own pending purchase into a failure and touches nothing else. */
  lemma AbandoningIsExact(s: State, id: int, user: UserId)
    ensures var (s', r) := FailPurchase(s, id, user);
            if !(1 <= id <= |s.purchases|) || s.purchases[id - 1].user != user then s' == s && r == Err(NotFound)
            else if s.purchases[id - 1].status != Pending then s' == s && r == Err(PurchaseNotPending)
            else && s' == s.(purchases := s'.purchases) && |s'.purchases| == |s.purchases|
                 && (forall i :: 0 <= i < |s.purchases| && i != id - 1 ==> s'.purchases[i] == s.purchases[i])
                 && s'.purchases[id - 1] == PurchaseRow(user, s.purchases[id - 1].pack, Failed, s.purchases[id - 1].key,
                                                        s.purchases[id - 1].ledgerId)
                 && r == Ok(s'.purchases[id - 1])
  {
  }
}
