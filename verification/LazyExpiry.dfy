/**
  A bonus that has lapsed counts as gone whether or not the nightly write-off has run:
  a store that never runs the write-off and one that runs it at any moments at all answer
  every command alike. Proved as a simulation over whole runs.
 */
module LazyExpiry {
  import opened Prelude
  import opened Coins
  import opened Spend
  import opened Store
  import opened LedgerTotals
  import opened Conservation

  // ------------------------------------------------------------- the relation

  /** Same money now and later: identical, or one wallet holds a lapsed bonus the other has written off. */
  predicate WalletsAgree(lazy: Balance, eager: Balance, now: Instant) {
    && lazy.Healthy() && eager.Healthy()
    && (lazy == eager || (eager == Balance(lazy.paid, 0, None) && lazy.Lapsed(now)))
  }

  /** A ledger row but for its number, which write-offs in between push up. */
  function Unnumbered(row: LedgerRow): LedgerRow {
    row.(id := 0)
  }

  function Recorded(row: Option<LedgerRow>): Option<LedgerRow> {
    match row
    case None => None
    case Some(r) => Some(Unnumbered(r))
  }

  predicate SamePurchases(a: seq<PurchaseRow>, b: seq<PurchaseRow>) {
    |a| == |b| && forall i :: 0 <= i < |a| ==>
      a[i].user == b[i].user && a[i].pack == b[i].pack && a[i].key == b[i].key && a[i].status == b[i].status
  }

  const NIGHTLY := "bonus_expire:"

  /** Everything a command's answer can depend on is alike. */
  ghost predicate Agree(lazy: State, eager: State, now: Instant) {
    && lazy.catalog == eager.catalog
    && SamePurchases(lazy.purchases, eager.purchases)
    && (forall u {:trigger WalletOf(lazy, u)} {:trigger WalletOf(eager, u)} ::
          WalletsAgree(WalletOf(lazy, u), WalletOf(eager, u), now))
    && (forall u, c :: Owns(lazy.unlocks, u, c) <==> Owns(eager.unlocks, u, c))
    && (forall u, k {:trigger FindKey(lazy.ledger, u, k)} {:trigger FindKey(eager.ledger, u, k)} ::
          k != "" && !(NIGHTLY <= k) ==> Recorded(FindKey(lazy.ledger, u, k)) == Recorded(FindKey(eager.ledger, u, k)))
  }

  /** A spend, a tip or a credit whose bonus lives for some time, under a key of its own. */
  predicate Ordinary(cmd: Command) {
    && !(NIGHTLY <= cmd.key)
    && match cmd.op.kind
       case SpendUnlock | Tip => true
       case Topup | BonusGrant | Refund => cmd.op.bonusTTL > 0
       case Adjust | BonusExpire => false
  }

  /** The write-off of one wallet, under its dated key. */
  predicate Nightly(cmd: Command) {
    cmd.op.kind == BonusExpire && cmd.child == NoChild && NIGHTLY <= cmd.key
  }

  /** The same success — row, coins and usable bonus — or the same failure. */
  predicate SameAnswer(a: Result<Receipt, Error>, b: Result<Receipt, Error>, now: Instant) {
    match (a, b)
    case (Ok(x), Ok(y)) =>
      && x.replayed == y.replayed && Unnumbered(x.ledger) == Unnumbered(y.ledger)
      && x.balance.paid == y.balance.paid && x.balance.EffectiveBonus(now) == y.balance.EffectiveBonus(now)
    case (Err(x), Err(y)) => x == y
    case _ => false
  }

  /** Related wallets hold the same coins and the same usable bonus from now on. */
  lemma AgreementIsVisible(lazy: Balance, eager: Balance, now: Instant, later: Instant)
    requires WalletsAgree(lazy, eager, now) && now <= later
    ensures lazy.paid == eager.paid && lazy.EffectiveBonus(later) == eager.EffectiveBonus(later)
    ensures WalletsAgree(lazy, eager, later)
  {
  }

  // ------------------------------------------------------------ one command

  /** Related wallets accept and refuse the same ordinary commands, and end up equal. */
  lemma PlansAgree(lazy: Balance, eager: Balance, cmd: Command)
    requires WalletsAgree(lazy, eager, cmd.now) && Ordinary(cmd)
    ensures match (PlanFor(lazy, cmd), PlanFor(eager, cmd))
            case (Ok(p), Ok(q)) => p.entry == q.entry && p.result == q.result && p.result.Healthy()
            case (Err(x), Err(y)) => x == y
            case _ => false
  {
  }

  lemma ChecksAgree(lazy: State, eager: State, now: Instant, cmd: Command)
    requires Agree(lazy, eager, now)
    ensures CheckChild(lazy, cmd) == CheckChild(eager, cmd)
  {
  }

  lemma OwnsAfter(unlocks: seq<UnlockRow>, rows: seq<UnlockRow>, user: UserId, chapter: ChapterId)
    ensures Owns(unlocks + rows, user, chapter) <==> Owns(unlocks, user, chapter) || Owns(rows, user, chapter)
  {
    if Owns(rows, user, chapter) {
      var u :| u in rows && u.user == user && u.chapter == chapter;
      assert u in unlocks + rows;
    }
    if Owns(unlocks, user, chapter) {
      var u :| u in unlocks && u.user == user && u.chapter == chapter;
      assert u in unlocks + rows;
    }
  }

  /** Which chapters the new rows cover does not depend on the ledger row they name. */
  lemma NewlyOwned(cmd: Command, a: nat, b: nat, spent: int, user: UserId, chapter: ChapterId)
    ensures Owns(NewUnlocks(cmd, a, spent), user, chapter) ==> Owns(NewUnlocks(cmd, b, spent), user, chapter)
  {
    var rows, rows' := NewUnlocks(cmd, a, spent), NewUnlocks(cmd, b, spent);
    if Owns(rows, user, chapter) {
      var u :| u in rows && u.user == user && u.chapter == chapter;
      var i :| 0 <= i < |rows| && rows[i] == u;
      assert rows'[i] in rows';
    }
  }

  lemma ChecksAllowTheUnlocks(s: State, cmd: Command, ledgerId: nat, spent: int)
    requires CheckChild(s, cmd) == None
    ensures InsertUnlocks(s.unlocks, NewUnlocks(cmd, ledgerId, spent)).Some?
  {
    if cmd.child.ChapterUnlock? || cmd.child.ArcBundle? {
      UnlockBackstopIsDead(s, cmd, NewUnlocks(cmd, ledgerId, spent), ledgerId);
    }
  }

  /** Whether the child rows can be written does not depend on the ledger row or the wallet. */
  lemma ChildrenAgree(lazy: State, eager: State, cmd: Command, a: nat, b: nat, entry: Entry)
    requires SamePurchases(lazy.purchases, eager.purchases) && lazy.catalog == eager.catalog
    requires forall u, c :: Owns(lazy.unlocks, u, c) <==> Owns(eager.unlocks, u, c)
    requires InsertUnlocks(lazy.unlocks, NewUnlocks(cmd, a, -(entry.delta + entry.bonusDelta))).Some?
    requires InsertUnlocks(eager.unlocks, NewUnlocks(cmd, b, -(entry.delta + entry.bonusDelta))).Some?
    ensures match (WriteChild(lazy, cmd, a, entry), WriteChild(eager, cmd, b, entry))
            case (Ok(l), Ok(e)) =>
              && SamePurchases(l.purchases, e.purchases)
              && (forall u, c :: Owns(l.unlocks, u, c) <==> Owns(e.unlocks, u, c))
            case (Err(x), Err(y)) => x == y
            case _ => false
  {
    var spent := -(entry.delta + entry.bonusDelta);
    var l, e := WriteChild(lazy, cmd, a, entry), WriteChild(eager, cmd, b, entry);
    if l.Ok? && e.Ok? {
      ChildRows(lazy, cmd, a, entry);
      ChildRows(eager, cmd, b, entry);
      forall u, c
        ensures Owns(l.value.unlocks, u, c) <==> Owns(e.value.unlocks, u, c)
      {
        OwnsAfter(lazy.unlocks, NewUnlocks(cmd, a, spent), u, c);
        OwnsAfter(eager.unlocks, NewUnlocks(cmd, b, spent), u, c);
        NewlyOwned(cmd, a, b, spent, u, c);
        NewlyOwned(cmd, b, a, spent, u, c);
      }
    }
  }

  lemma LaterAgrees(lazy: State, eager: State, now: Instant, later: Instant)
    requires Agree(lazy, eager, now) && now <= later
    ensures Agree(lazy, eager, later)
  {
    forall u
      ensures WalletsAgree(WalletOf(lazy, u), WalletOf(eager, u), later)
    {
      AgreementIsVisible(WalletOf(lazy, u), WalletOf(eager, u), now, later);
    }
  }

  lemma EnsureWalletIsInvisible(s: State, user: UserId)
    ensures forall u :: WalletOf(EnsureWallet(s, user), u) == WalletOf(s, u)
  {
  }

  /** The children written for one command on related tables, whatever has been posted to ledger and wallets. */
  lemma WrittenChildrenAgree(lazy: State, eager: State, lp: State, ep: State, l: State, e: State,
                             cmd: Command, a: nat, b: nat, entry: Entry)
    requires SamePurchases(lazy.purchases, eager.purchases) && lazy.catalog == eager.catalog
    requires forall u, c :: Owns(lazy.unlocks, u, c) <==> Owns(eager.unlocks, u, c)
    requires CheckChild(lazy, cmd) == None && CheckChild(eager, cmd) == None
    requires lp.unlocks == lazy.unlocks && lp.purchases == lazy.purchases && lp.catalog == lazy.catalog
    requires ep.unlocks == eager.unlocks && ep.purchases == eager.purchases && ep.catalog == eager.catalog
    requires WriteChild(lp, cmd, a, entry) == Ok(l) && WriteChild(ep, cmd, b, entry) == Ok(e)
    ensures SamePurchases(l.purchases, e.purchases)
    ensures forall u, c :: Owns(l.unlocks, u, c) <==> Owns(e.unlocks, u, c)
  {
    ChecksAllowTheUnlocks(lazy, cmd, a, -(entry.delta + entry.bonusDelta));
    ChecksAllowTheUnlocks(eager, cmd, b, -(entry.delta + entry.bonusDelta));
    ChildrenAgree(lp, ep, cmd, a, b, entry);
  }

  lemma PartsAgree(lazy: State, eager: State, cmd: Command, p: Plan, q: Plan, l: State, e: State,
        lp: State, ep: State, a: nat, b: nat)
    requires Agree(lazy, eager, cmd.now) && p.entry == q.entry && p.result == q.result && p.result.Healthy()
    requires CheckChild(lazy, cmd) == None && WriteChild(lp, cmd, a, p.entry) == Ok(l)
    requires CheckChild(eager, cmd) == None && WriteChild(ep, cmd, b, p.entry) == Ok(e)
    requires lp.unlocks == lazy.unlocks && lp.purchases == lazy.purchases && lp.catalog == lazy.catalog
    requires ep.unlocks == eager.unlocks && ep.purchases == eager.purchases && ep.catalog == eager.catalog
    requires l.ledger == lazy.ledger + PlanRows(cmd, p, |lazy.ledger| + 1)
               && l.wallets == lazy.wallets[cmd.user := p.result]
    requires e.ledger == eager.ledger + PlanRows(cmd, q, |eager.ledger| + 1)
               && e.wallets == eager.wallets[cmd.user := p.result]
    requires l.catalog == lazy.catalog && e.catalog == eager.catalog
    ensures Agree(l, e, cmd.now)
  {
    WrittenChildrenAgree(lazy, eager, lp, ep, l, e, cmd, a, b, p.entry);
    WalletsAfterPost(lazy, eager, l, e, cmd, p.result);
    KeysAfterPost(lazy, eager, l, e, cmd, p, q);
  }

  /** The states after posting one command to related states are related. */
  lemma PostedAgree(lazy: State, eager: State, cmd: Command, p: Plan, q: Plan, l: Outcome, e: Outcome)
    requires Agree(lazy, eager, cmd.now) && p.entry == q.entry && p.result == q.result && p.result.Healthy()
    requires Posted(lazy, cmd, p, l) && Posted(eager, cmd, q, e)
    ensures Agree(l.state, e.state, cmd.now)
  {
    var lp, a := PostedChild(lazy, cmd, p, l);
    var ep, b := PostedChild(eager, cmd, q, e);
    PostedTables(lazy, cmd, p, l);
    PostedTables(eager, cmd, q, e);
    PartsAgree(lazy, eager, cmd, p, q, l.state, e.state, lp, ep, a, b);
  }

  lemma WalletsAfterPost(lazy: State, eager: State, l: State, e: State, cmd: Command, result: Balance)
    requires Agree(lazy, eager, cmd.now) && result.Healthy()
    requires l.wallets == lazy.wallets[cmd.user := result] && e.wallets == eager.wallets[cmd.user := result]
    ensures forall u :: WalletsAgree(WalletOf(l, u), WalletOf(e, u), cmd.now)
  {
    forall u
      ensures WalletsAgree(WalletOf(l, u), WalletOf(e, u), cmd.now)
    {
      if u != cmd.user {
        assert WalletOf(l, u) == WalletOf(lazy, u) && WalletOf(e, u) == WalletOf(eager, u);
      }
    }
  }

  lemma KeysAfterPost(lazy: State, eager: State, l: State, e: State, cmd: Command, p: Plan, q: Plan)
    requires Agree(lazy, eager, cmd.now) && p.entry == q.entry
    requires l.ledger == lazy.ledger + PlanRows(cmd, p, |lazy.ledger| + 1)
    requires e.ledger == eager.ledger + PlanRows(cmd, q, |eager.ledger| + 1)
    ensures forall u, k :: k != "" && !(NIGHTLY <= k) ==>
              Recorded(FindKey(l.ledger, u, k)) == Recorded(FindKey(e.ledger, u, k))
  {
    forall u, k | k != "" && !(NIGHTLY <= k)
      ensures Recorded(FindKey(l.ledger, u, k)) == Recorded(FindKey(e.ledger, u, k))
    {
      FindKeyAfterPost(lazy.ledger, cmd, p, |lazy.ledger| + 1, u, k);
      FindKeyAfterPost(eager.ledger, cmd, q, |eager.ledger| + 1, u, k);
      assert Recorded(FindKey(lazy.ledger, u, k)) == Recorded(FindKey(eager.ledger, u, k));
    }
  }

  lemma UntouchedAgree(lazy: State, eager: State, l: State, e: State, now: Instant, user: UserId)
    requires Agree(lazy, eager, now)
    requires l == lazy || l == EnsureWallet(lazy, user)
    requires e == eager || e == EnsureWallet(eager, user)
    ensures Agree(l, e, now)
  {
    EnsureWalletIsInvisible(lazy, user);
    EnsureWalletIsInvisible(eager, user);
    forall u
      ensures WalletsAgree(WalletOf(l, u), WalletOf(e, u), now)
    {
      assert WalletOf(l, u) == WalletOf(lazy, u) && WalletOf(e, u) == WalletOf(eager, u);
    }
  }

  /** What a fresh command that passes its checks answers, by what its plan and its child rows come to. */
  lemma FreshByStages(s: State, cmd: Command, plan: Plan)
    requires CheckChild(s, cmd) == None && PlanFor(WalletOf(s, cmd.user), cmd) == Ok(plan)
    ensures var mismatch :=
              cmd.child.ArcBundle? && Allocated(cmd.child.items) != -(plan.entry.delta + plan.entry.bonusDelta);
            var written :=
              WriteChild(Post(s, cmd, plan), cmd, |s.ledger| + |PlanRows(cmd, plan, |s.ledger| + 1)|, plan.entry);
            match ApplyFresh(s, cmd)
            case Ok(x) => !mismatch && written.Ok? && x.1.balance == plan.result && !x.1.replayed
                          && Unnumbered(x.1.ledger) == ToLedgerRow(cmd, plan.entry, cmd.key, 0)
            case Err(x) => if mismatch then x == InvalidAmount else written == Err(x)
  {
  }

  /** A fresh command is checked, planned and written alike on related states. */
  lemma FreshAnswersAgree(lazy: State, eager: State, cmd: Command)
    requires Agree(lazy, eager, cmd.now) && Ordinary(cmd)
    requires cmd.user in lazy.wallets && cmd.user in eager.wallets
    ensures match (ApplyFresh(lazy, cmd), ApplyFresh(eager, cmd))
            case (Ok(x), Ok(y)) => x.1.balance == y.1.balance && !x.1.replayed && !y.1.replayed
                                   && Unnumbered(x.1.ledger) == Unnumbered(y.1.ledger)
            case (Err(x), Err(y)) => x == y
            case _ => false
  {
    ChecksAgree(lazy, eager, cmd.now, cmd);
    PlansAgree(WalletOf(lazy, cmd.user), WalletOf(eager, cmd.user), cmd);
    if CheckChild(lazy, cmd) == None && PlanFor(WalletOf(lazy, cmd.user), cmd).Ok? {
      var p, q := PlanFor(WalletOf(lazy, cmd.user), cmd).value, PlanFor(WalletOf(eager, cmd.user), cmd).value;
      FreshChildrenAgree(lazy, eager, cmd, p, q);
      FreshByStages(lazy, cmd, p);
      FreshByStages(eager, cmd, q);
    }
  }

  lemma FreshChildrenAgree(lazy: State, eager: State, cmd: Command, p: Plan, q: Plan)
    requires Agree(lazy, eager, cmd.now) && p.entry == q.entry
    requires CheckChild(lazy, cmd) == None && CheckChild(eager, cmd) == None
    ensures match (WriteChild(Post(lazy, cmd, p), cmd, |lazy.ledger| + |PlanRows(cmd, p, |lazy.ledger| + 1)|, p.entry),
                   WriteChild(Post(eager, cmd, q), cmd,
                              |eager.ledger| + |PlanRows(cmd, q, |eager.ledger| + 1)|, q.entry))
            case (Ok(_), Ok(_)) => true
            case (Err(x), Err(y)) => x == y
            case _ => false
  {
    var a, b :=
      |lazy.ledger| + |PlanRows(cmd, p, |lazy.ledger| + 1)|, |eager.ledger| + |PlanRows(cmd, q, |eager.ledger| + 1)|;
    ChecksAllowTheUnlocks(lazy, cmd, a, -(p.entry.delta + p.entry.bonusDelta));
    ChecksAllowTheUnlocks(eager, cmd, b, -(p.entry.delta + p.entry.bonusDelta));
    ChildrenAgree(Post(lazy, cmd, p), Post(eager, cmd, q), cmd, a, b, p.entry);
  }

  /** The row a command's key was applied as, if it was. */
  function Found(s: State, cmd: Command): Option<LedgerRow> {
    if cmd.key == "" then None else FindKey(s.ledger, cmd.user, cmd.key)
  }

  function Answer(s: State, cmd: Command): Result<Receipt, Error> {
    match Found(s, cmd)
    case None => (match ApplyFresh(s, cmd) case Err(e) => Err(e) case Ok(x) => Ok(x.1))
    case Some(row) =>
      if SameTarget(row, cmd) then Ok(Receipt(row, None, WalletOf(s, cmd.user), true)) else Err(IdempotencyConflict)
  }

  lemma AppliedIsAnswer(s: State, cmd: Command)
    ensures Apply(s, cmd).result == Answer(EnsureWallet(s, cmd.user), cmd)
  {
  }

  lemma LockedAnswersAgree(lazy: State, eager: State, cmd: Command)
    requires Agree(lazy, eager, cmd.now) && Ordinary(cmd)
    requires cmd.user in lazy.wallets && cmd.user in eager.wallets
    ensures SameAnswer(Answer(lazy, cmd), Answer(eager, cmd), cmd.now)
  {
    assert WalletsAgree(WalletOf(lazy, cmd.user), WalletOf(eager, cmd.user), cmd.now);
    assert Recorded(Found(lazy, cmd)) == Recorded(Found(eager, cmd));
    if Found(lazy, cmd) == None {
      FreshAnswersAgree(lazy, eager, cmd);
    }
  }

  lemma AnswersAgree(lazy: State, eager: State, cmd: Command)
    requires Agree(lazy, eager, cmd.now) && Ordinary(cmd)
    ensures SameAnswer(Apply(lazy, cmd).result, Apply(eager, cmd).result, cmd.now)
  {
    UntouchedAgree(lazy, eager, EnsureWallet(lazy, cmd.user), EnsureWallet(eager, cmd.user), cmd.now, cmd.user);
    AppliedIsAnswer(lazy, cmd);
    AppliedIsAnswer(eager, cmd);
    LockedAnswersAgree(EnsureWallet(lazy, cmd.user), EnsureWallet(eager, cmd.user), cmd);
  }

  /** One ordinary command: the same answer, and the states stay related. */
  lemma CommandAgrees(lazy: State, eager: State, cmd: Command)
    requires Agree(lazy, eager, cmd.now) && Ordinary(cmd)
    ensures SameAnswer(Apply(lazy, cmd).result, Apply(eager, cmd).result, cmd.now)
    ensures Agree(Apply(lazy, cmd).state, Apply(eager, cmd).state, cmd.now)
  {
    AnswersAgree(lazy, eager, cmd);
    var p := ApplyShape(lazy, cmd);
    var q := ApplyShape(eager, cmd);
    if p.Some? {
      PlansAgree(WalletOf(lazy, cmd.user), WalletOf(eager, cmd.user), cmd);
      PostedAgree(lazy, eager, cmd, p.value, q.value, Apply(lazy, cmd), Apply(eager, cmd));
    } else {
      UntouchedAgree(lazy, eager, Apply(lazy, cmd).state, Apply(eager, cmd).state, cmd.now, cmd.user);
    }
  }

  /** A write-off run on one side only leaves the states related. */
  lemma NightlyIsInvisible(lazy: State, eager: State, cmd: Command)
    requires Agree(lazy, eager, cmd.now) && Nightly(cmd)
    ensures Agree(lazy, Apply(eager, cmd).state, cmd.now)
  {
    var o := Apply(eager, cmd);
    var q := ApplyShape(eager, cmd);
    if q.Some? {
      assert WalletsAgree(WalletOf(lazy, cmd.user), WalletOf(eager, cmd.user), cmd.now);
      WriteOffIsInvisible(lazy, eager, o.state, cmd, q.value);
    } else {
      UntouchedAgree(lazy, eager, lazy, o.state, cmd.now, cmd.user);
    }
  }

  lemma WriteOffIsInvisible(lazy: State, eager: State, e: State, cmd: Command, q: Plan)
    requires Agree(lazy, eager, cmd.now) && Nightly(cmd)
    requires PlanFor(WalletOf(eager, cmd.user), cmd) == Ok(q)
    requires e == Post(eager, cmd, q)
    ensures Agree(lazy, e, cmd.now)
  {
    forall u
      ensures WalletsAgree(WalletOf(lazy, u), WalletOf(e, u), cmd.now)
    {
      assert WalletsAgree(WalletOf(lazy, u), WalletOf(eager, u), cmd.now);
      if u != cmd.user {
        assert WalletOf(e, u) == WalletOf(eager, u);
      }
    }
    forall u, k | k != "" && !(NIGHTLY <= k)
      ensures Recorded(FindKey(lazy.ledger, u, k)) == Recorded(FindKey(e.ledger, u, k))
    {
      FindKeyAfterPost(eager.ledger, cmd, q, |eager.ledger| + 1, u, k);
      assert Recorded(FindKey(lazy.ledger, u, k)) == Recorded(FindKey(eager.ledger, u, k));
    }
  }

  // -------------------------------------------------------------- whole runs

  /** A step both stores take, or a write-off only the eager one takes. */
  datatype Turn = Both(e: Event) | WriteOffOnly(cmd: Command)

  function LazyRun(s: State, turns: seq<Turn>): State {
    if turns == [] then s
    else
      var last, before := turns[|turns| - 1], LazyRun(s, turns[..|turns| - 1]);
      match last
      case Both(e) => Step(before, e)
      case WriteOffOnly(_) => before
  }

  function EagerRun(s: State, turns: seq<Turn>): State {
    if turns == [] then s
    else
      var last, before := turns[|turns| - 1], EagerRun(s, turns[..|turns| - 1]);
      match last
      case Both(e) => Step(before, e)
      case WriteOffOnly(cmd) => Apply(before, cmd).state
  }

  /** The latest clock reading, or `start` before any. */
  function Clock(start: Instant, turns: seq<Turn>): Instant {
    if turns == [] then start
    else
      match turns[|turns| - 1]
      case Both(Coin(cmd)) => cmd.now
      case WriteOffOnly(cmd) => cmd.now
      case _ => Clock(start, turns[..|turns| - 1])
  }

  /** Ordinary commands and write-offs, at clock readings that never go back. */
  predicate Orderly(start: Instant, turns: seq<Turn>) {
    turns == [] ||
    (Orderly(start, turns[..|turns| - 1]) &&
     match turns[|turns| - 1]
     case Both(Coin(cmd)) => Ordinary(cmd) && Clock(start, turns[..|turns| - 1]) <= cmd.now
     case WriteOffOnly(cmd) => Nightly(cmd) && Clock(start, turns[..|turns| - 1]) <= cmd.now
     case _ => true)
  }

  lemma {:induction false} SamePurchaseFound(a: seq<PurchaseRow>, b: seq<PurchaseRow>, user: UserId, key: string)
    requires SamePurchases(a, b)
    ensures FindPurchase(a, user, key) == FindPurchase(b, user, key)
  {
    if a != [] {
      SamePurchaseFound(a[..|a| - 1], b[..|b| - 1], user, key);
    }
  }

  lemma OtherEventsAgree(lazy: State, eager: State, now: Instant, e: Event)
    requires Agree(lazy, eager, now) && !e.Coin?
    ensures Agree(Step(lazy, e), Step(eager, e), now)
  {
    if e.OpenPurchase? {
      SamePurchaseFound(lazy.purchases, eager.purchases, e.user, e.key);
    }
    var l, g := Step(lazy, e), Step(eager, e);
    assert l.ledger == lazy.ledger && g.ledger == eager.ledger && l.wallets == lazy.wallets
      && g.wallets == eager.wallets;
    forall u
      ensures WalletsAgree(WalletOf(l, u), WalletOf(g, u), now)
    {
      assert WalletOf(l, u) == WalletOf(lazy, u) && WalletOf(g, u) == WalletOf(eager, u);
    }
  }

  /**
    Inserting write-offs anywhere into a run of spends, tips, top-ups, purchases and
    catalogue edits leaves the two stores related at every moment.
   */
  lemma {:induction false} RunsAgree(lazy: State, eager: State, start: Instant, turns: seq<Turn>)
    requires Agree(lazy, eager, start) && Orderly(start, turns)
    ensures Agree(LazyRun(lazy, turns), EagerRun(eager, turns), Clock(start, turns))
  {
    if turns != [] {
      var before, last := turns[..|turns| - 1], turns[|turns| - 1];
      RunsAgree(lazy, eager, start, before);
      var l, e := LazyRun(lazy, before), EagerRun(eager, before);
      match last
      case Both(Coin(cmd)) =>
        LaterAgrees(l, e, Clock(start, before), cmd.now);
        CommandAgrees(l, e, cmd);
      case WriteOffOnly(cmd) =>
        LaterAgrees(l, e, Clock(start, before), cmd.now);
        NightlyIsInvisible(l, e, cmd);
      case Both(other) =>
        OtherEventsAgree(l, e, Clock(start, before), other);
    }
  }

  /**
    Lazy and eager expiry agree: after any such run from an empty store, the next command
    is answered alike with or without the write-offs, and every wallet shows the same
    balance and the same usable bonus at every later time.
   */
  lemma LazyAndEagerExpiryAgree(catalog: Catalog, start: Instant, turns: seq<Turn>, next: Command, user: UserId,
        later: Instant)
    requires Orderly(start, turns) && Clock(start, turns) <= later
    requires Ordinary(next) && Clock(start, turns) <= next.now
    ensures var lazy, eager := LazyRun(Initial(catalog), turns), EagerRun(Initial(catalog), turns);
            && SameAnswer(Apply(lazy, next).result, Apply(eager, next).result, next.now)
            && WalletOf(lazy, user).paid == WalletOf(eager, user).paid
            && WalletOf(lazy, user).EffectiveBonus(later) == WalletOf(eager, user).EffectiveBonus(later)
  {
    var lazy, eager := LazyRun(Initial(catalog), turns), EagerRun(Initial(catalog), turns);
    RunsAgree(Initial(catalog), Initial(catalog), start, turns);
    AgreementIsVisible(WalletOf(lazy, user), WalletOf(eager, user), Clock(start, turns), later);
    LaterAgrees(lazy, eager, Clock(start, turns), next.now);
    CommandAgrees(lazy, eager, next);
  }

  // ------------------------------------------------- what the law leaves out

  /**
    An administrative adjustment reads the stored bonus, lapsed or not. On a wallet whose
    lapsed bonus only one side has written off, the two sides answer alike and show the
    same coins exactly when the correction leaves the bonus alone, fails on the paid side,
    or takes more bonus than was stored.
   */
  lemma AdjustAgreesIff(lazy: Balance, now: Instant, delta: int, bonusDelta: int)
    requires lazy.Healthy() && ExpiresFirst(lazy, now)
    ensures var eager := Balance(lazy.paid, 0, None);
            (match (PlanAdjust(lazy, delta, bonusDelta), PlanAdjust(eager, delta, bonusDelta))
             case (Ok(p), Ok(q)) => p.result.paid == q.result.paid
               && p.result.EffectiveBonus(now) == q.result.EffectiveBonus(now)
             case (Err(x), Err(y)) => x == y
             case _ => false)
            <==> bonusDelta == 0 || lazy.paid + delta < 0 || bonusDelta < -lazy.bonus
  {
  }

  /** Fifty lapsed coins can be clawed back ten at a time until the night, and not after. */
  lemma AdjustSeesALapsedBonus()
    ensures PlanAdjust(Balance(0, 50, Some(1)), 0, -10).Ok?
    ensures PlanAdjust(Balance(0, 0, None), 0, -10) == Err(InsufficientCoins)
  {
  }

  /**
    A credit keeps the two sides alike exactly when it brings no bonus or its bonus has a
    lifetime: with none, the new bonus inherits the old lapsed deadline on one side only.
   */
  lemma CreditAgreesIff(lazy: Balance, coins: int, bonusCoins: int, ttl: int, now: Instant)
    requires lazy.Healthy() && ExpiresFirst(lazy, now) && PlanCredit(lazy, coins, bonusCoins, ttl, now).Ok?
    ensures var eager := Balance(lazy.paid, 0, None);
            (PlanCredit(lazy, coins, bonusCoins, ttl, now).value.result.EffectiveBonus(now)
               == PlanCredit(eager, coins, bonusCoins, ttl, now).value.result.EffectiveBonus(now))
            <==> bonusCoins == 0 || ttl > 0
  {
  }

  /** Fifty lapsed coins and a ten-coin bonus without a lifetime: gone at once, unless the night came first. */
  lemma CreditSeesALapsedBonus()
    ensures PlanCredit(Balance(0, 50, Some(1)), 0, 10, 0, 5).Ok? && PlanCredit(Balance(0, 0, None), 0, 10, 0, 5).Ok?
    ensures PlanCredit(Balance(0, 50, Some(1)), 0, 10, 0, 5).value.result.EffectiveBonus(5) == 0
    ensures PlanCredit(Balance(0, 0, None), 0, 10, 0, 5).value.result.EffectiveBonus(5) == 10
  {
  }
}
