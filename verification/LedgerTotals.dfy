/** The ledger is a running total: what every run of the store keeps true of balances and ledger rows. */
module LedgerTotals {
  import opened Prelude
  import opened Coins
  import opened Spend
  import opened Store

  /** The sum of a user's paid deltas. */
  function PaidSum(ledger: seq<LedgerRow>, user: UserId): int {
    if ledger == [] then 0
    else
      var last := ledger[|ledger| - 1];
      PaidSum(ledger[..|ledger| - 1], user) + if last.user == user then last.delta else 0
  }

  /** The sum of a user's bonus deltas. */
  function BonusSum(ledger: seq<LedgerRow>, user: UserId): int {
    if ledger == [] then 0
    else
      var last := ledger[|ledger| - 1];
      BonusSum(ledger[..|ledger| - 1], user) + if last.user == user then last.bonusDelta else 0
  }

  /** Every row records the totals of its user up to and including itself, and neither is negative. */
  ghost predicate Running(ledger: seq<LedgerRow>) {
    forall i {:trigger ledger[i]} :: 0 <= i < |ledger| ==>
      && ledger[i].balanceAfter == PaidSum(ledger[..i + 1], ledger[i].user) >= 0
      && ledger[i].bonusAfter == BonusSum(ledger[..i + 1], ledger[i].user) >= 0
  }

  /** The reconciliation invariant, row by row and wallet by wallet. */
  ghost predicate Reconciled(s: State) {
    && Running(s.ledger)
    && (forall i {:trigger s.ledger[i]} ::
          0 <= i < |s.ledger| ==> s.ledger[i].id == i + 1 && s.ledger[i].user in s.wallets)
    && (forall u {:trigger WalletOf(s, u)} ::
          && WalletOf(s, u).paid == PaidSum(s.ledger, u)
          && WalletOf(s, u).bonus == BonusSum(s.ledger, u)
          && WalletOf(s, u).Healthy())
  }

  // ------------------------------------------------------ the shape of Apply

  lemma WriteChildKeeps(s: State, cmd: Command, ledgerId: nat, entry: Entry)
    requires WriteChild(s, cmd, ledgerId, entry).Ok?
    ensures var s' := WriteChild(s, cmd, ledgerId, entry).value;
            s'.ledger == s.ledger && s'.wallets == s.wallets && s'.catalog == s.catalog
  {
  }

  /** Money moved: the plan for the wallet was posted, and the receipt shows its rows. */
  ghost predicate Posted(s: State, cmd: Command, plan: Plan, o: Outcome) {
    var rows := PlanRows(cmd, plan, |s.ledger| + 1);
    && PlanFor(WalletOf(s, cmd.user), cmd) == Ok(plan)
    && CheckChild(s, cmd) == None
    && o.state.ledger == s.ledger + rows
    && o.state.wallets == s.wallets[cmd.user := plan.result]
    && o.state.catalog == s.catalog
    && o.result == Ok(Receipt(rows[|rows| - 1], if |rows| == 2 then Some(rows[0]) else None, plan.result, false))
    && (cmd.key != "" ==> FindKey(s.ledger, cmd.user, cmd.key) == None)
    && WriteChild(Post(EnsureWallet(s, cmd.user), cmd, plan), cmd, |s.ledger| + |rows|, plan.entry) == Ok(o.state)
    && (cmd.child.ArcBundle? ==> Allocated(cmd.child.items) == -(plan.entry.delta + plan.entry.bonusDelta))
  }

  /** No money moved: at most an empty wallet row was created. */
  predicate Untouched(s: State, cmd: Command, o: Outcome) {
    || (o.state == s && o.result.Err?)
    || (o.state == EnsureWallet(s, cmd.user) && o.result.Ok? && o.result.value.replayed)
  }

  /** Creating the wallet's row first changes nothing the transaction looks at. */
  lemma EmptyRowIsInvisible(s: State, cmd: Command)
    ensures var locked := EnsureWallet(s, cmd.user);
            && WalletOf(locked, cmd.user) == WalletOf(s, cmd.user) && CheckChild(locked, cmd) == CheckChild(s, cmd)
            && locked.ledger == s.ledger && locked.catalog == s.catalog
  {
  }

  lemma FreshShape(s: State, cmd: Command, after: State, receipt: Receipt)
    returns (plan: Plan, rows: seq<LedgerRow>, posted: State, ledgerId: nat)
    requires ApplyFresh(s, cmd) == Ok((after, receipt))
    ensures PlanFor(WalletOf(s, cmd.user), cmd) == Ok(plan) && CheckChild(s, cmd) == None
    ensures rows == PlanRows(cmd, plan, |s.ledger| + 1) && ledgerId == |s.ledger| + |rows|
    ensures receipt == Receipt(rows[|rows| - 1], if |rows| == 2 then Some(rows[0]) else None, plan.result, false)
    ensures posted == Post(s, cmd, plan) && WriteChild(posted, cmd, ledgerId, plan.entry) == Ok(after)
    ensures cmd.child.ArcBundle? ==> Allocated(cmd.child.items) == -(plan.entry.delta + plan.entry.bonusDelta)
  {
    plan := PlanFor(WalletOf(s, cmd.user), cmd).value;
    rows := PlanRows(cmd, plan, |s.ledger| + 1);
    posted := Post(s, cmd, plan);
    ledgerId := |s.ledger| + |rows|;
  }

  lemma AppliedIsFresh(s: State, cmd: Command)
    requires Apply(s, cmd).result.Ok? && !Apply(s, cmd).result.value.replayed
    ensures var applied := ApplyFresh(EnsureWallet(s, cmd.user), cmd);
            applied.Ok? && Apply(s, cmd) == Outcome(applied.value.0, Ok(applied.value.1))
    ensures cmd.key != "" ==> FindKey(s.ledger, cmd.user, cmd.key) == None
  {
  }

  lemma PostedFromParts(s: State, locked: State, posted: State, cmd: Command, plan: Plan, rows: seq<LedgerRow>,
        ledgerId: nat, after: State, receipt: Receipt)
    requires locked == EnsureWallet(s, cmd.user) && posted == Post(locked, cmd, plan)
    requires PlanFor(WalletOf(s, cmd.user), cmd) == Ok(plan) && CheckChild(s, cmd) == None
    requires rows == PlanRows(cmd, plan, |s.ledger| + 1) && ledgerId == |s.ledger| + |rows|
    requires receipt == Receipt(rows[|rows| - 1], if |rows| == 2 then Some(rows[0]) else None, plan.result, false)
    requires WriteChild(posted, cmd, ledgerId, plan.entry) == Ok(after)
    requires after.ledger == posted.ledger && after.wallets == posted.wallets && after.catalog == s.catalog
    requires cmd.child.ArcBundle? ==> Allocated(cmd.child.items) == -(plan.entry.delta + plan.entry.bonusDelta)
    requires cmd.key != "" ==> FindKey(s.ledger, cmd.user, cmd.key) == None
    ensures Posted(s, cmd, plan, Outcome(after, Ok(receipt)))
  {
    assert posted.wallets == s.wallets[cmd.user := plan.result];
  }

  lemma LockedIsPosted(s: State, locked: State, posted: State, cmd: Command, plan: Plan, rows: seq<LedgerRow>,
        ledgerId: nat, after: State, receipt: Receipt)
    requires locked == EnsureWallet(s, cmd.user) && posted == Post(locked, cmd, plan)
    requires PlanFor(WalletOf(locked, cmd.user), cmd) == Ok(plan) && CheckChild(locked, cmd) == None
    requires rows == PlanRows(cmd, plan, |locked.ledger| + 1) && ledgerId == |locked.ledger| + |rows|
    requires receipt == Receipt(rows[|rows| - 1], if |rows| == 2 then Some(rows[0]) else None, plan.result, false)
    requires WriteChild(posted, cmd, ledgerId, plan.entry) == Ok(after)
    requires cmd.child.ArcBundle? ==> Allocated(cmd.child.items) == -(plan.entry.delta + plan.entry.bonusDelta)
    requires cmd.key != "" ==> FindKey(s.ledger, cmd.user, cmd.key) == None
    ensures Posted(s, cmd, plan, Outcome(after, Ok(receipt)))
  {
    EmptyRowIsInvisible(s, cmd);
    WriteChildKeeps(posted, cmd, ledgerId, plan.entry);
    PostedFromParts(s, locked, posted, cmd, plan, rows, ledgerId, after, receipt);
  }

  lemma FreshIsPosted(s: State, locked: State, cmd: Command, after: State, receipt: Receipt) returns (plan: Plan)
    requires locked == EnsureWallet(s, cmd.user) && ApplyFresh(locked, cmd) == Ok((after, receipt))
    requires cmd.key != "" ==> FindKey(s.ledger, cmd.user, cmd.key) == None
    ensures Posted(s, cmd, plan, Outcome(after, Ok(receipt)))
  {
    var rows, posted, ledgerId;
    plan, rows, posted, ledgerId := FreshShape(locked, cmd, after, receipt);
    LockedIsPosted(s, locked, posted, cmd, plan, rows, ledgerId, after, receipt);
  }

  lemma ApplyShape(s: State, cmd: Command) returns (plan: Option<Plan>)
    ensures plan.None? ==> Untouched(s, cmd, Apply(s, cmd))
    ensures plan.Some? ==> Posted(s, cmd, plan.value, Apply(s, cmd))
  {
    plan := None;
    if Apply(s, cmd).result.Ok? && !Apply(s, cmd).result.value.replayed {
      AppliedIsFresh(s, cmd);
      var (after, receipt) := ApplyFresh(EnsureWallet(s, cmd.user), cmd).value;
      var p := FreshIsPosted(s, EnsureWallet(s, cmd.user), cmd, after, receipt);
      plan := Some(p);
    }
  }

  /** What a posted command did to ledger, wallets and catalogue. */
  lemma PostedTables(s: State, cmd: Command, plan: Plan, o: Outcome)
    requires Posted(s, cmd, plan, o)
    ensures PlanFor(WalletOf(s, cmd.user), cmd) == Ok(plan)
    ensures o.state.ledger == s.ledger + PlanRows(cmd, plan, |s.ledger| + 1)
    ensures o.state.wallets == s.wallets[cmd.user := plan.result] && o.state.catalog == s.catalog
  {
  }

  /** What a posted command wrote beside its rows and its balance. */
  lemma PostedChild(s: State, cmd: Command, plan: Plan, o: Outcome) returns (posted: State, ledgerId: nat)
    requires Posted(s, cmd, plan, o)
    ensures CheckChild(s, cmd) == None && WriteChild(posted, cmd, ledgerId, plan.entry) == Ok(o.state)
    ensures posted.unlocks == s.unlocks && posted.earnings == s.earnings && posted.purchases == s.purchases
    ensures posted.catalog == s.catalog && ledgerId == |s.ledger| + |PlanRows(cmd, plan, |s.ledger| + 1)|
  {
    posted := Post(EnsureWallet(s, cmd.user), cmd, plan);
    ledgerId := |s.ledger| + |PlanRows(cmd, plan, |s.ledger| + 1)|;
  }

  /** The answer to a posted command shows its main row, whose key was new. */
  lemma PostedReceipt(s: State, cmd: Command, plan: Plan, o: Outcome)
    requires Posted(s, cmd, plan, o)
    ensures var rows := PlanRows(cmd, plan, |s.ledger| + 1);
            o.result.Ok? && o.result.value.ledger == rows[|rows| - 1] && !o.result.value.replayed
    ensures cmd.key != "" ==> FindKey(s.ledger, cmd.user, cmd.key) == None
  {
  }

  /** Whatever the command, the plan made from a healthy wallet is sound and of the command's kind. */
  lemma PlanForIsSound(bal: Balance, cmd: Command)
    requires bal.Healthy() && PlanFor(bal, cmd).Ok?
    ensures Sound(bal, PlanFor(bal, cmd).value)
    ensures PlanFor(bal, cmd).value.entry.kind == cmd.op.kind
  {
  }

  // ------------------------------------------------------------ the invariant

  lemma AppendRow(ledger: seq<LedgerRow>, row: LedgerRow)
    requires Running(ledger)
    requires row.balanceAfter == PaidSum(ledger, row.user) + row.delta >= 0
    requires row.bonusAfter == BonusSum(ledger, row.user) + row.bonusDelta >= 0
    ensures Running(ledger + [row])
    ensures forall u :: PaidSum(ledger + [row], u) == PaidSum(ledger, u) + if u == row.user then row.delta else 0
    ensures forall u ::
              BonusSum(ledger + [row], u) == BonusSum(ledger, u) + if u == row.user then row.bonusDelta else 0
  {
    var after := ledger + [row];
    assert after[..|ledger|] == ledger;
    forall i | 0 <= i < |after|
      ensures after[i].balanceAfter == PaidSum(after[..i + 1], after[i].user) >= 0
      ensures after[i].bonusAfter == BonusSum(after[..i + 1], after[i].user) >= 0
    {
      if i < |ledger| {
        assert after[..i + 1] == ledger[..i + 1];
        assert after[i] == ledger[i];
      } else {
        assert after[..i + 1] == after;
      }
    }
  }

  lemma SoundRowsRun(ledger: seq<LedgerRow>, bal: Balance, cmd: Command, plan: Plan, next: nat)
    requires Running(ledger) && Sound(bal, plan) && bal.Healthy()
    requires bal.paid == PaidSum(ledger, cmd.user) && bal.bonus == BonusSum(ledger, cmd.user)
    ensures var ledger' := ledger + PlanRows(cmd, plan, next);
            && Running(ledger')
            && (forall u :: u != cmd.user ==> PaidSum(ledger', u) == PaidSum(ledger, u)
                                              && BonusSum(ledger', u) == BonusSum(ledger, u))
            && plan.result.paid == PaidSum(ledger', cmd.user)
            && plan.result.bonus == BonusSum(ledger', cmd.user)
  {
    var rows := PlanRows(cmd, plan, next);
    AppendRow(ledger, rows[0]);
    if plan.expiry.Some? {
      AppendRow(ledger + [rows[0]], rows[1]);
      assert ledger + rows == ledger + [rows[0]] + [rows[1]];
    } else {
      assert rows == [rows[0]];
    }
  }

  lemma PostedReconciles(s: State, s': State, cmd: Command, plan: Plan)
    requires Reconciled(s) && Sound(WalletOf(s, cmd.user), plan)
    requires s'.ledger == s.ledger + PlanRows(cmd, plan, |s.ledger| + 1)
    requires s'.wallets == s.wallets[cmd.user := plan.result]
    ensures Reconciled(s')
  {
    SoundRowsRun(s.ledger, WalletOf(s, cmd.user), cmd, plan, |s.ledger| + 1);
    var rows := PlanRows(cmd, plan, |s.ledger| + 1);
    forall i | 0 <= i < |s'.ledger|
      ensures s'.ledger[i].id == i + 1 && s'.ledger[i].user in s'.wallets
    {
      if i < |s.ledger| {
        assert s'.ledger[i] == s.ledger[i];
      } else {
        assert s'.ledger[i] == rows[i - |s.ledger|];
      }
    }
    forall u
      ensures && WalletOf(s', u).paid == PaidSum(s'.ledger, u)
              && WalletOf(s', u).bonus == BonusSum(s'.ledger, u)
              && WalletOf(s', u).Healthy()
    {
      assert u != cmd.user ==> WalletOf(s', u) == WalletOf(s, u);
    }
  }

  lemma UntouchedReconciles(s: State, s': State)
    requires Reconciled(s) && s'.ledger == s.ledger && s.wallets.Keys <= s'.wallets.Keys
    requires forall u :: WalletOf(s', u) == WalletOf(s, u)
    ensures Reconciled(s')
  {
  }

  /** One coin operation of any kind, by any user, keeps the books reconciled. */
  lemma ApplyReconciles(s: State, cmd: Command)
    requires Reconciled(s)
    ensures Reconciled(Apply(s, cmd).state)
  {
    var o := Apply(s, cmd);
    var plan := ApplyShape(s, cmd);
    if plan.Some? {
      PlanForIsSound(WalletOf(s, cmd.user), cmd);
      PostedReconciles(s, o.state, cmd, plan.value);
    } else {
      UntouchedReconciles(s, o.state);
    }
  }

  /**
    After any run of transactions over any users and command kinds, each wallet equals
    the sums of its ledger deltas, each row's recorded balances equal the sums up to that
    row, nothing is negative, and an empty bonus has no deadline.
   */
  lemma {:induction false} EveryRunReconciles(catalog: Catalog, events: seq<Event>)
    ensures Reconciled(Run(Initial(catalog), events))
  {
    if events != [] {
      var init, last := events[..|events| - 1], events[|events| - 1];
      EveryRunReconciles(catalog, init);
      var s := Run(Initial(catalog), init);
      if last.Coin? {
        ApplyReconciles(s, last.cmd);
      } else {
        var s' := Step(s, last);
        assert s'.ledger == s.ledger && s'.wallets == s.wallets;
        assert forall u :: WalletOf(s', u) == WalletOf(s, u);
      }
    }
  }

  /** The ledger is append-only over every run. */
  lemma {:induction false} LedgerOnlyGrows(s: State, events: seq<Event>)
    ensures s.ledger <= Run(s, events).ledger
  {
    if events != [] {
      var init, last := events[..|events| - 1], events[|events| - 1];
      LedgerOnlyGrows(s, init);
      if last.Coin? {
        var plan := ApplyShape(Run(s, init), last.cmd);
      }
    }
  }
}
