/** Nothing is paid for twice and retries are replays, over every interleaving of the coin transactions. */
module ExactlyOnce {
  import opened Prelude
  import opened Coins
  import opened Spend
  import opened Store
  import opened LedgerTotals
  import opened Conservation

  /** A run in which every coin command is one the service builds. */
  ghost predicate ServiceRun(events: seq<Event>) {
    forall e :: e in events && e.Coin? ==> ServiceShaped(e.cmd)
  }

  // ------------------------------------------------------ conservation on runs

  lemma NewCredits(cmd: Command, rows: seq<LedgerRow>, p: int)
    requires ServiceShaped(cmd) && 1 <= |rows| <= 2
    requires |rows| == 2 ==> rows[0].kind == BonusExpire
    requires var main := rows[|rows| - 1];
             main.kind == cmd.op.kind && main.refType == cmd.op.refType && main.refId == cmd.op.refId
    ensures CreditsFor(rows, p) == if cmd.child == PurchaseComplete(p) then [rows[|rows| - 1].id] else []
  {
    assert CreditsFor(rows[..|rows| - 1], p) == [] by {
      assert rows[..|rows| - 1][..0] == [];
    }
  }

  lemma AppendsSettles(s: State, s': State, cmd: Command, rows: seq<LedgerRow>)
    requires Settled(s) && ServiceShaped(cmd) && 1 <= |rows| <= 2
    requires s'.ledger == s.ledger + rows
    requires forall p: int :: NamedCredit(s'.purchases, p) == NamedCredit(s.purchases, p) + CreditsFor(rows, p)
    ensures Settled(s')
  {
    forall p: int
      ensures CreditsFor(s'.ledger, p) == NamedCredit(s'.purchases, p)
    {
      CreditsForAppend(s.ledger, rows, p);
    }
  }

  lemma CompletionIsNamed(s: State, s': State, cmd: Command, ledgerId: nat, p: int)
    requires CompletesPurchase(s, s', cmd, ledgerId)
    ensures NamedCredit(s'.purchases, p)
              == NamedCredit(s.purchases, p) + if cmd.child == PurchaseComplete(p) then [ledgerId] else []
  {
  }

  lemma AppendedCreditsSettle(s: State, s': State, cmd: Command, rows: seq<LedgerRow>, spent: int)
    requires Appends(s, s', cmd, rows, spent) && Settled(s) && ServiceShaped(cmd)
    requires CompletesPurchase(s, s', cmd, |s.ledger| + |rows|)
    ensures Settled(s')
  {
    forall p: int
      ensures NamedCredit(s'.purchases, p) == NamedCredit(s.purchases, p) + CreditsFor(rows, p)
    {
      NewCredits(cmd, rows, p);
      CompletionIsNamed(s, s', cmd, |s.ledger| + |rows|, p);
    }
    AppendsSettles(s, s', cmd, rows);
  }

  /** A top-up moves its purchase from pending to succeeded, naming the ledger row; nothing else moves a purchase. */
  ghost predicate CompletesPurchase(s: State, s': State, cmd: Command, ledgerId: nat) {
    if cmd.child.PurchaseComplete? then
      var p := cmd.child.purchase;
      && 1 <= p <= |s.purchases|
      && s.purchases[p - 1].status == Pending
      && s'.purchases == s.purchases[p - 1 := s.purchases[p - 1].(status := Succeeded, ledgerId := Some(ledgerId))]
    else s'.purchases == s.purchases
  }

  lemma PostedPurchases(s: State, cmd: Command, plan: Plan, o: Outcome)
    requires Posted(s, cmd, plan, o)
    ensures CompletesPurchase(s, o.state, cmd, |s.ledger| + |PlanRows(cmd, plan, |s.ledger| + 1)|)
  {
    var posted, ledgerId := PostedChild(s, cmd, plan, o);
    WrittenPurchases(s, o.state, posted, cmd, plan.entry, ledgerId);
  }

  lemma WrittenPurchases(s: State, s': State, posted: State, cmd: Command, entry: Entry, ledgerId: nat)
    requires WriteChild(posted, cmd, ledgerId, entry) == Ok(s') && posted.purchases == s.purchases
    ensures CompletesPurchase(s, s', cmd, ledgerId)
  {
    ChildRows(posted, cmd, ledgerId, entry);
  }

  /** The rows a posted command appended and the coins it took, with nothing else of the plan. */
  lemma PostedRows(s: State, cmd: Command, plan: Plan, o: Outcome) returns (rows: seq<LedgerRow>, spent: int)
    requires Posted(s, cmd, plan, o) && WalletOf(s, cmd.user).Healthy() && UniqueUnlocks(s.unlocks)
    ensures Appends(s, o.state, cmd, rows, spent)
    ensures cmd.op.kind == SpendUnlock || cmd.op.kind == Tip ==> spent == cmd.op.amount
    ensures CompletesPurchase(s, o.state, cmd, |s.ledger| + |rows|)
  {
    PostedTables(s, cmd, plan, o);
    var posted, ledgerId := PostedChild(s, cmd, plan, o);
    PlanDebits(WalletOf(s, cmd.user), cmd, plan);
    rows, spent := PlanRows(cmd, plan, |s.ledger| + 1), -(plan.entry.delta + plan.entry.bonusDelta);
    AppendsFromParts(s, o.state, posted, cmd, plan, rows, ledgerId, spent);
    WrittenPurchases(s, o.state, posted, cmd, plan.entry, ledgerId);
  }

  lemma CommandKeepsAccounts(s: State, cmd: Command)
    requires WalletOf(s, cmd.user).Healthy() && Conserved(s) && Settled(s) && ServiceShaped(cmd)
    ensures Conserved(Apply(s, cmd).state) && Settled(Apply(s, cmd).state)
  {
    var o := Apply(s, cmd);
    var plan := ApplyShape(s, cmd);
    if plan.Some? {
      var rows, spent := PostedRows(s, cmd, plan.value, o);
      AppendsConserves(s, o.state, cmd, rows, spent);
      AppendedCreditsSettle(s, o.state, cmd, rows, spent);
    } else {
      SameTablesKeepAccounts(s, o.state);
    }
  }

  lemma SameTablesKeepAccounts(s: State, s': State)
    requires Conserved(s) && Settled(s)
    requires s'.ledger == s.ledger && s'.unlocks == s.unlocks && s'.earnings == s.earnings
    requires |s.purchases| <= |s'.purchases|
    requires forall i :: 0 <= i < |s.purchases| ==>
               (s.purchases[i].status == Succeeded <==> s'.purchases[i].status == Succeeded)
               && s.purchases[i].ledgerId == s'.purchases[i].ledgerId
    requires forall i :: |s.purchases| <= i < |s'.purchases| ==> s'.purchases[i].status == Pending
    ensures Conserved(s') && Settled(s')
  {
    forall row | row in s'.ledger
      ensures RowExplained(s', row)
    {
      assert RowExplained(s, row);
    }
  }

  lemma OtherEventsKeepAccounts(s: State, e: Event)
    requires Conserved(s) && Settled(s) && !e.Coin?
    ensures Conserved(Step(s, e)) && Settled(Step(s, e))
  {
    SameTablesKeepAccounts(s, Step(s, e));
  }

  lemma StepKeepsAccounts(s: State, e: Event)
    requires Reconciled(s) && Conserved(s) && Settled(s) && (e.Coin? ==> ServiceShaped(e.cmd))
    ensures Conserved(Step(s, e)) && Settled(Step(s, e))
  {
    if e.Coin? {
      assert WalletOf(s, e.cmd.user).Healthy();
      CommandKeepsAccounts(s, e.cmd);
    } else {
      OtherEventsKeepAccounts(s, e);
    }
  }

  lemma InitialAccounts(catalog: Catalog)
    ensures Conserved(Initial(catalog)) && Settled(Initial(catalog))
  {
  }

  /**
    Over any interleaving of the service's commands, purchases opened and abandoned, and
    catalogue edits: every debit is accounted for by its child rows, every child row by a
    debit, and every purchase by at most one credit.
   */
  lemma {:induction false} EveryRunConserves(catalog: Catalog, events: seq<Event>)
    requires ServiceRun(events)
    ensures Conserved(Run(Initial(catalog), events)) && Settled(Run(Initial(catalog), events))
  {
    if events == [] {
      InitialAccounts(catalog);
    } else {
      var init, last := events[..|events| - 1], events[|events| - 1];
      assert last in events;
      EveryRunConserves(catalog, init);
      EveryRunReconciles(catalog, init);
      StepKeepsAccounts(Run(Initial(catalog), init), last);
    }
  }

  // -------------------------------------------------------- paid for only once

  /** A spending row pays for a chapter when an unlock row for it names the row. */
  ghost predicate PaysFor(s: State, row: LedgerRow, user: UserId, chapter: ChapterId) {
    row.kind == SpendUnlock && row.user == user &&
    exists u :: u in s.unlocks && u.ledgerId == row.id && u.chapter == chapter
  }

  /** Every single-chapter debit pays for the chapter it refers to, and for nothing else. */
  lemma SingleDebitPaysForItsChapter(s: State, row: LedgerRow, chapter: ChapterId)
    requires Conserved(s) && row in s.ledger && row.kind == SpendUnlock
    requires row.refType == RefChapterUnlock || row.refType == RefAutoUnlock
    ensures PaysFor(s, row, row.user, chapter) <==> row.refId == Some(chapter)
  {
    var i :| 0 <= i < |s.ledger| && s.ledger[i] == row;
    assert RowExplained(s, row);
    var u :| u in s.unlocks && u.ledgerId == row.id;
    assert UnlockExplained(s.ledger, u);
    if v :| v in s.unlocks && v.ledgerId == row.id && v.chapter == chapter {
      assert UnlockExplained(s.ledger, v);
    }
  }

  lemma TheUnlock(s: State, row: LedgerRow, user: UserId, chapter: ChapterId) returns (u: UnlockRow)
    requires Conserved(s) && row in s.ledger && PaysFor(s, row, user, chapter)
    ensures u in s.unlocks && u.user == user && u.chapter == chapter
    ensures 1 <= u.ledgerId <= |s.ledger| && s.ledger[u.ledgerId - 1] == row
  {
    u :| u in s.unlocks && u.ledgerId == row.id && u.chapter == chapter;
    assert UnlockExplained(s.ledger, u);
    var i :| 0 <= i < |s.ledger| && s.ledger[i] == row;
  }

  lemma OneUnlockPerPair(unlocks: seq<UnlockRow>, u: UnlockRow, v: UnlockRow)
    requires UniqueUnlocks(unlocks) && u in unlocks && v in unlocks
    requires u.user == v.user && u.chapter == v.chapter
    ensures u == v
  {
    var m :| 0 <= m < |unlocks| && unlocks[m] == u;
    var n :| 0 <= n < |unlocks| && unlocks[n] == v;
    assert !(m < n) && !(n < m);
  }

  lemma PaidOnceIn(s: State, a: LedgerRow, b: LedgerRow, user: UserId, chapter: ChapterId)
    requires Conserved(s) && a in s.ledger && b in s.ledger
    requires PaysFor(s, a, user, chapter) && PaysFor(s, b, user, chapter)
    ensures a == b
  {
    var u := TheUnlock(s, a, user, chapter);
    var v := TheUnlock(s, b, user, chapter);
    OneUnlockPerPair(s.unlocks, u, v);
  }

  /** However unlocks, bundles, automatic unlocks and retries interleave, a reader pays for a chapter at most once. */
  lemma PaidAtMostOnce(catalog: Catalog, events: seq<Event>, a: LedgerRow, b: LedgerRow, user: UserId,
        chapter: ChapterId)
    requires ServiceRun(events)
    requires a in Run(Initial(catalog), events).ledger && b in Run(Initial(catalog), events).ledger
    requires PaysFor(Run(Initial(catalog), events), a, user, chapter)
    requires PaysFor(Run(Initial(catalog), events), b, user, chapter)
    ensures a == b
  {
    EveryRunConserves(catalog, events);
    PaidOnceIn(Run(Initial(catalog), events), a, b, user, chapter);
  }

  // ------------------------------------------------------------------ purchases

  /** A purchase row only ever moves from pending to a final status; its owner, key and pack never change. */
  ghost predicate PurchasesAdvance(s: State, s': State) {
    && |s.purchases| <= |s'.purchases|
    && forall i {:trigger s'.purchases[i]} :: 0 <= i < |s.purchases| ==>
         && s'.purchases[i].user == s.purchases[i].user
         && s'.purchases[i].key == s.purchases[i].key
         && s'.purchases[i].pack == s.purchases[i].pack
         && (s.purchases[i].status != Pending ==> s'.purchases[i] == s.purchases[i])
  }

  lemma CompletionAdvances(s: State, s': State, cmd: Command, ledgerId: nat)
    requires CompletesPurchase(s, s', cmd, ledgerId)
    ensures PurchasesAdvance(s, s')
  {
  }

  lemma CommandAdvancesPurchases(s: State, cmd: Command)
    ensures PurchasesAdvance(s, Apply(s, cmd).state)
  {
    var o := Apply(s, cmd);
    var plan := ApplyShape(s, cmd);
    if plan.Some? {
      PostedPurchases(s, cmd, plan.value, o);
      CompletionAdvances(s, o.state, cmd, |s.ledger| + |PlanRows(cmd, plan.value, |s.ledger| + 1)|);
    }
  }

  lemma StepAdvancesPurchases(s: State, e: Event)
    ensures PurchasesAdvance(s, Step(s, e))
  {
    if e.Coin? {
      CommandAdvancesPurchases(s, e.cmd);
    }
  }

  lemma {:induction false} RunAdvancesPurchases(s: State, events: seq<Event>)
    ensures PurchasesAdvance(s, Run(s, events))
  {
    if events != [] {
      var init := events[..|events| - 1];
      RunAdvancesPurchases(s, init);
      StepAdvancesPurchases(Run(s, init), events[|events| - 1]);
    }
  }

  /** A purchase is credited at most once, and never once it has failed, whatever runs before or after. */
  lemma PurchaseCreditedAtMostOnce(catalog: Catalog, before: seq<Event>, after: seq<Event>, p: int)
    requires ServiceRun(before) && ServiceRun(after)
    ensures var mid, end := Run(Initial(catalog), before), Run(Initial(catalog), before + after);
            && |CreditsFor(end.ledger, p)| <= 1
            && (1 <= p <= |mid.purchases| && mid.purchases[p - 1].status == Failed ==> CreditsFor(end.ledger, p) == [])
            && (CreditsFor(mid.ledger, p) != [] ==> CreditsFor(end.ledger, p) == CreditsFor(mid.ledger, p))
  {
    var mid, end := Run(Initial(catalog), before), Run(Initial(catalog), before + after);
    EveryRunConserves(catalog, before);
    EveryRunConserves(catalog, before + after);
    RunAppend(Initial(catalog), before, after);
    RunAdvancesPurchases(mid, after);
    assert 1 <= p <= |mid.purchases| ==> end.purchases[p - 1].user == mid.purchases[p - 1].user;
  }

  // -------------------------------------------------------------------- retries

  lemma {:induction false} FindKeyPersists(ledger: seq<LedgerRow>, more: seq<LedgerRow>, user: UserId, key: string)
    requires FindKey(ledger, user, key).Some? && ledger <= more
    ensures FindKey(more, user, key) == FindKey(ledger, user, key)
    decreases |more|
  {
    if |more| > |ledger| {
      assert ledger <= more[..|more| - 1];
      FindKeyPersists(ledger, more[..|more| - 1], user, key);
    } else {
      assert more == ledger;
    }
  }

  lemma {:induction false} RunKeepsWallets(s: State, events: seq<Event>)
    ensures s.wallets.Keys <= Run(s, events).wallets.Keys
  {
    if events != [] {
      var init, last := events[..|events| - 1], events[|events| - 1];
      RunKeepsWallets(s, init);
      if last.Coin? {
        var plan := ApplyShape(Run(s, init), last.cmd);
      }
    }
  }

  /** An answer that shows the row its key is stored under, with the target it was sent with. */
  ghost predicate Stored(o: Outcome, cmd: Command) {
    && o.result.Ok?
    && FindKey(o.state.ledger, cmd.user, cmd.key) == Some(o.result.value.ledger)
    && SameTarget(o.result.value.ledger, cmd)
    && cmd.user in o.state.wallets
  }

  lemma PostedKeyIsStored(s: State, cmd: Command, plan: Plan, o: Outcome)
    requires cmd.key != "" && Posted(s, cmd, plan, o)
    ensures Stored(o, cmd)
  {
    PostedTables(s, cmd, plan, o);
    PostedReceipt(s, cmd, plan, o);
    FindKeyAfterPost(s.ledger, cmd, plan, |s.ledger| + 1, cmd.user, cmd.key);
    PlanKind(WalletOf(s, cmd.user), cmd);
  }

  lemma ReplayIsStored(s: State, cmd: Command)
    requires cmd.key != "" && Apply(s, cmd).result.Ok? && Apply(s, cmd).result.value.replayed
    ensures Stored(Apply(s, cmd), cmd)
  {
  }

  /** An applied key is found again, on the row its receipt showed. */
  lemma AppliedKeyIsStored(s: State, cmd: Command)
    requires cmd.key != "" && Apply(s, cmd).result.Ok?
    ensures Stored(Apply(s, cmd), cmd)
  {
    var plan := ApplyShape(s, cmd);
    if plan.Some? {
      PostedKeyIsStored(s, cmd, plan.value, Apply(s, cmd));
    } else {
      ReplayIsStored(s, cmd);
    }
  }

  /** The unique index on (user, key) over the keyed rows. */
  ghost predicate UniqueKeys(ledger: seq<LedgerRow>) {
    forall i, j :: 0 <= i < j < |ledger| && ledger[i].key != "" ==>
      !(ledger[i].user == ledger[j].user && ledger[i].key == ledger[j].key)
  }

  lemma RowKeepsKeysUnique(ledger: seq<LedgerRow>, row: LedgerRow)
    requires UniqueKeys(ledger)
    requires row.key != "" ==> forall r :: r in ledger ==> !(r.user == row.user && r.key == row.key)
    ensures UniqueKeys(ledger + [row])
  {
    assert forall i :: 0 <= i < |ledger| ==> ledger[i] in ledger;
  }

  lemma RowsKeepKeysUnique(ledger: seq<LedgerRow>, user: UserId, key: string, rows: seq<LedgerRow>)
    requires UniqueKeys(ledger) && 1 <= |rows| <= 2 && (|rows| == 2 ==> rows[0].key == "")
    requires rows[|rows| - 1].user == user && rows[|rows| - 1].key == key
    requires key != "" ==> FindKey(ledger, user, key) == None
    ensures UniqueKeys(ledger + rows)
  {
    RowKeepsKeysUnique(ledger, rows[0]);
    if |rows| == 2 {
      RowKeepsKeysUnique(ledger + [rows[0]], rows[1]);
      assert ledger + rows == (ledger + [rows[0]]) + [rows[1]];
    } else {
      assert rows == [rows[0]];
    }
  }

  lemma CommandKeepsKeysUnique(s: State, cmd: Command)
    requires UniqueKeys(s.ledger)
    ensures UniqueKeys(Apply(s, cmd).state.ledger)
  {
    var o := Apply(s, cmd);
    var plan := ApplyShape(s, cmd);
    if plan.Some? {
      PostedTables(s, cmd, plan.value, o);
      PostedReceipt(s, cmd, plan.value, o);
      RowsKeepKeysUnique(s.ledger, cmd.user, cmd.key, PlanRows(cmd, plan.value, |s.ledger| + 1));
    }
  }

  /**
    After every run, of any commands whatever, no two keyed rows of a user share their key: the
    write path keeps the unique index by its own look-up, and never meets the violation it handles.
   */
  lemma {:induction false} KeysStayUnique(catalog: Catalog, events: seq<Event>)
    ensures UniqueKeys(Run(Initial(catalog), events).ledger)
  {
    if events != [] {
      var init, last := events[..|events| - 1], events[|events| - 1];
      KeysStayUnique(catalog, init);
      if last.Coin? {
        CommandKeepsKeysUnique(Run(Initial(catalog), init), last.cmd);
      }
    }
  }

  lemma PlanKind(bal: Balance, cmd: Command)
    requires PlanFor(bal, cmd).Ok?
    ensures PlanFor(bal, cmd).value.entry.kind == cmd.op.kind
  {
  }

  /**
    Once a key has been applied, sending it again — any time later, after any run at all,
    even with a different price or child — returns the stored row and changes nothing when
    it names the same target, and is refused without effect when it names another.
   */
  lemma RetryIsReplay(s: State, cmd: Command, events: seq<Event>, retry: Command)
    requires cmd.key != "" && Apply(s, cmd).result.Ok?
    requires retry.user == cmd.user && retry.key == cmd.key
    ensures var first := Apply(s, cmd);
            var later := Run(first.state, events);
            if retry.op.kind == cmd.op.kind && retry.op.refType == cmd.op.refType && retry.op.refId == cmd.op.refId
            then Apply(later, retry)
                   == Outcome(later, Ok(Receipt(first.result.value.ledger, None, WalletOf(later, cmd.user), true)))
            else Apply(later, retry) == Outcome(later, Err(IdempotencyConflict))
  {
    var first := Apply(s, cmd);
    var later := Run(first.state, events);
    AppliedKeyIsStored(s, cmd);
    LedgerOnlyGrows(first.state, events);
    FindKeyPersists(first.state.ledger, later.ledger, cmd.user, cmd.key);
    RunKeepsWallets(first.state, events);
    assert EnsureWallet(later, retry.user) == later;
  }

  /** The look-up finds the first row under the key. */
  lemma {:induction false} FindPurchaseIsFirst(purchases: seq<PurchaseRow>, user: UserId, key: string, i: nat)
    requires i < |purchases| && purchases[i].user == user && purchases[i].key == key
    ensures 0 < FindPurchase(purchases, user, key) <= i + 1
  {
    var n := |purchases| - 1;
    if i < n {
      FindPurchaseIsFirst(purchases[..n], user, key, i);
    }
  }

  lemma FindPurchasePersists(purchases: seq<PurchaseRow>, more: seq<PurchaseRow>, user: UserId, key: string)
    requires FindPurchase(purchases, user, key) > 0 && |purchases| <= |more|
    requires forall i :: 0 <= i < |purchases| ==> more[i].user == purchases[i].user && more[i].key == purchases[i].key
    ensures FindPurchase(more, user, key) == FindPurchase(purchases, user, key)
  {
    FindPurchaseIsFirst(more, user, key, FindPurchase(purchases, user, key) - 1);
    FindPurchaseIsFirst(purchases, user, key, FindPurchase(more, user, key) - 1);
  }

  /** Opening a purchase again under its key, at any later time, returns the same row and opens nothing. */
  lemma ReopeningIsReplay(s: State, user: UserId, pack: int, key: string, events: seq<Event>, otherPack: int)
    requires key != ""
    ensures var (stored, id) := CreatePurchase(s, user, pack, key);
            var later := Run(stored, events);
            CreatePurchase(later, user, otherPack, key) == (later, id)
  {
    var (stored, id) := CreatePurchase(s, user, pack, key);
    assert stored.purchases[..|stored.purchases| - 1] == s.purchases || stored == s;
    assert FindPurchase(stored.purchases, user, key) == id;
    RunAdvancesPurchases(stored, events);
    FindPurchasePersists(stored.purchases, Run(stored, events).purchases, user, key);
  }
}
