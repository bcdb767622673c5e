/**
  Money is conserved between the ledger and the rows that explain it, and nothing is
  paid for twice, over every run of commands the wallet service can build.
 */
module Conservation {
  import opened Prelude
  import opened Coins
  import opened Spend
  import opened Store

  // -------------------------------------------------- commands of the service

  /** The commands the wallet service builds, from whatever it read beforehand. */
  predicate ServiceShaped(cmd: Command) {
    match cmd.child
    case ChapterUnlock(chapter, _, _) =>
      && cmd.op.kind == SpendUnlock
      && (cmd.op.refType == RefChapterUnlock || cmd.op.refType == RefAutoUnlock)
      && cmd.op.refId == Some(chapter)
      && 0 < cmd.op.amount <= MAX_INT16
    case ArcBundle(items) =>
      && cmd.op.kind == SpendUnlock
      && cmd.op.refType == RefArcBundle
      && cmd.op.amount == Allocated(items)
      && forall item :: item in items ==> 0 <= item.coins <= item.listPrice <= MAX_INT16
    case PurchaseComplete(p) =>
      cmd.op.kind == Topup && cmd.op.refType == RefPurchase && cmd.op.refId == Some(p)
    case TipChild(chapter, writer, _) =>
      cmd.op.kind == Tip && cmd.op.refType == RefChapterTip && cmd.op.refId == Some(chapter)
    case NoChild =>
      || (cmd.op.kind == Adjust && cmd.op.refType == RefAdminAdjust)
      || (cmd.op.kind == BonusExpire && cmd.op.refType == RefBonusExpire)
  }

  // ------------------------------------------------------------- the accounts

  /** The coins that the unlock rows naming a ledger row say were spent. */
  function CoinsFor(unlocks: seq<UnlockRow>, ledgerId: nat): int {
    if unlocks == [] then 0
    else
      var last := unlocks[|unlocks| - 1];
      CoinsFor(unlocks[..|unlocks| - 1], ledgerId) + if last.ledgerId == ledgerId then last.coinsSpent else 0
  }

  /** The gross amounts of the tip earnings naming a ledger row. */
  function TipsFor(earnings: seq<EarningRow>, ledgerId: nat): seq<int> {
    if earnings == [] then []
    else
      var last := earnings[|earnings| - 1];
      TipsFor(earnings[..|earnings| - 1], ledgerId) +
      if last.kind == EarningTip && last.ledgerId == ledgerId then [last.gross] else []
  }

  /** The ids of the ledger rows that credit a purchase. */
  function CreditsFor(ledger: seq<LedgerRow>, purchase: int): seq<nat> {
    if ledger == [] then []
    else
      var last := ledger[|ledger| - 1];
      CreditsFor(ledger[..|ledger| - 1], purchase) +
      if last.kind == Topup && last.refType == RefPurchase && last.refId == Some(purchase) then [last.id] else []
  }

  predicate Debit(row: LedgerRow, amount: int) {
    amount == -(row.delta + row.bonusDelta)
  }

  /** The primary key of the unlock table. */
  ghost predicate UniqueUnlocks(unlocks: seq<UnlockRow>) {
    forall i, j :: 0 <= i < j < |unlocks| ==>
      !(unlocks[i].user == unlocks[j].user && unlocks[i].chapter == unlocks[j].chapter)
  }

  /** An unlock row names a spending row of the same reader; a single-chapter purchase buys its own chapter. */
  ghost predicate UnlockExplained(ledger: seq<LedgerRow>, u: UnlockRow) {
    && 1 <= u.ledgerId <= |ledger|
    && var row := ledger[u.ledgerId - 1];
       row.kind == SpendUnlock && row.user == u.user
       && (row.refType == RefChapterUnlock || row.refType == RefAutoUnlock ==> row.refId == Some(u.chapter))
  }

  /** The earning credits the coins of this unlock row. */
  predicate Pays(u: UnlockRow, e: EarningRow) {
    u.chapter == e.chapter && u.coinsSpent == e.gross
  }

  /** An unlock earning is one unlock row's coins, credited to a writer. */
  ghost predicate EarningExplained(ledger: seq<LedgerRow>, unlocks: seq<UnlockRow>, e: EarningRow) {
    && 1 <= e.ledgerId <= |ledger|
    && (e.kind == EarningUnlock ==>
          exists u :: u in unlocks && u.ledgerId == e.ledgerId && Pays(u, e))
  }

  /** The child rows naming a ledger row account for its debit to the coin. */
  ghost predicate RowExplained(s: State, row: LedgerRow) {
    && (row.kind == SpendUnlock ==> Debit(row, CoinsFor(s.unlocks, row.id)))
    && (row.kind == Tip ==> exists gross :: TipsFor(s.earnings, row.id) == [gross] && Debit(row, gross))
    && (row.kind != Tip ==> TipsFor(s.earnings, row.id) == [])
    && (row.kind == SpendUnlock && (row.refType == RefChapterUnlock || row.refType == RefAutoUnlock) ==>
          exists u :: u in s.unlocks && u.ledgerId == row.id)
  }

  ghost predicate Numbered(ledger: seq<LedgerRow>) {
    forall i :: 0 <= i < |ledger| ==> ledger[i].id == i + 1
  }

  ghost predicate Conserved(s: State) {
    && Numbered(s.ledger)
    && UniqueUnlocks(s.unlocks)
    && (forall u :: u in s.unlocks ==> UnlockExplained(s.ledger, u))
    && (forall e :: e in s.earnings ==> EarningExplained(s.ledger, s.unlocks, e))
    && (forall row :: row in s.ledger ==> RowExplained(s, row))
  }

  /** The ledger row a purchase says credited it, if it succeeded. */
  function NamedCredit(purchases: seq<PurchaseRow>, p: int): seq<nat> {
    if 1 <= p <= |purchases| && purchases[p - 1].status == Succeeded && purchases[p - 1].ledgerId.Some?
    then [purchases[p - 1].ledgerId.value]
    else []
  }

  /** A purchase is credited by exactly the ledger row it names, and by none unless it succeeded. */
  ghost predicate Settled(s: State) {
    forall p: int {:trigger CreditsFor(s.ledger, p)} :: CreditsFor(s.ledger, p) == NamedCredit(s.purchases, p)
  }

  // -------------------------------------------------------- inserting unlocks

  ghost predicate Insertable(unlocks: seq<UnlockRow>, rows: seq<UnlockRow>) {
    && UniqueUnlocks(rows)
    && forall r :: r in rows ==> !Owns(unlocks, r.user, r.chapter)
  }

  lemma {:induction false} InsertUnlocksResult(unlocks: seq<UnlockRow>, rows: seq<UnlockRow>)
    requires InsertUnlocks(unlocks, rows).Some?
    ensures InsertUnlocks(unlocks, rows).value == unlocks + rows
    ensures UniqueUnlocks(unlocks) ==> UniqueUnlocks(unlocks + rows)
    decreases |rows|
  {
    if rows == [] {
      assert unlocks + rows == unlocks;
    } else {
      var more := unlocks + [rows[0]];
      if UniqueUnlocks(unlocks) {
        forall i, j | 0 <= i < j < |more|
          ensures !(more[i].user == more[j].user && more[i].chapter == more[j].chapter)
        {
          assert more[i] in unlocks;
        }
      }
      InsertUnlocksResult(more, rows[1..]);
      assert unlocks + rows == more + rows[1..];
    }
  }

  lemma {:induction false} InsertUnlocksSucceeds(unlocks: seq<UnlockRow>, rows: seq<UnlockRow>)
    requires Insertable(unlocks, rows)
    ensures InsertUnlocks(unlocks, rows).Some?
    decreases |rows|
  {
    if rows != [] {
      var more := unlocks + [rows[0]];
      forall r | r in rows[1..]
        ensures !Owns(more, r.user, r.chapter)
      {
        var i :| 0 <= i < |rows[1..]| && rows[1..][i] == r;
        assert rows[i + 1] == r && r in rows;
      }
      assert UniqueUnlocks(rows[1..]);
      assert rows[0] in rows;
      InsertUnlocksSucceeds(more, rows[1..]);
    }
  }

  /**
    The constraint errors the write path handles as a last resort cannot happen once its
    checks have passed under the wallet lock: neither unlock insert collides, for any
    command over any state.
   */
  lemma UnlockBackstopIsDead(s: State, cmd: Command, rows: seq<UnlockRow>, ledgerId: nat)
    requires CheckChild(s, cmd) == None
    requires match cmd.child
             case ChapterUnlock(chapter, _, _) => |rows| == 1 && rows[0].user == cmd.user && rows[0].chapter == chapter
             case ArcBundle(items) => rows == ItemUnlocks(cmd, items, ledgerId)
             case _ => false
    ensures InsertUnlocks(s.unlocks, rows).Some?
  {
    if cmd.child.ArcBundle? {
      BundleItemsDistinct(s, cmd);
      var ids := ItemIds(cmd.child.items);
      forall i, j | 0 <= i < j < |rows|
        ensures !(rows[i].user == rows[j].user && rows[i].chapter == rows[j].chapter)
      {
        assert ids[i] != ids[j];
      }
      forall r | r in rows
        ensures !Owns(s.unlocks, r.user, r.chapter)
      {
        var i :| 0 <= i < |rows| && rows[i] == r;
        assert ids[i] in ids;
      }
    }
    InsertUnlocksSucceeds(s.unlocks, rows);
  }

  /** Counting the rows a query returns is enough to rule out a chapter listed twice. */
  lemma BundleItemsDistinct(s: State, cmd: Command)
    requires cmd.child.ArcBundle? && CheckChild(s, cmd) == None
    ensures Distinct(ItemIds(cmd.child.items))
    ensures forall item :: item in cmd.child.items ==> item.chapter in s.catalog.chapters
  {
    var ids := ItemIds(cmd.child.items);
    var rows := ChaptersIn(s.catalog.chapters, ids);
    DistinctByCount(ids);
    assert rows.Keys <= Elements(ids);
    SubsetCardinality(rows.Keys, Elements(ids));
    forall item | item in cmd.child.items
      ensures item.chapter in s.catalog.chapters
    {
      assert StillAsQuoted(rows, item);
    }
  }

  /** The unique index on (user, key) never rejects the main row: a used key has already been answered. */
  lemma KeyBackstopIsDead(s: State, cmd: Command, plan: Plan)
    requires cmd.key != "" && FindKey(s.ledger, cmd.user, cmd.key) == None
    ensures var before := s.ledger + PlanRows(cmd, plan, |s.ledger| + 1)[..|PlanRows(cmd, plan, |s.ledger| + 1)| - 1];
            FindKey(before, cmd.user, cmd.key) == None
  {
    var rows := PlanRows(cmd, plan, |s.ledger| + 1);
    if |rows| == 2 {
      assert (s.ledger + rows[..1])[..|s.ledger|] == s.ledger;
    } else {
      assert s.ledger + rows[..0] == s.ledger;
    }
  }

  /** Which row a key is stored under once a command has been posted. */
  lemma FindKeyAfterPost(ledger: seq<LedgerRow>, cmd: Command, plan: Plan, next: nat, user: UserId, key: string)
    requires key != ""
    ensures var rows := PlanRows(cmd, plan, next);
            FindKey(ledger + rows, user, key) ==
            if FindKey(ledger, user, key).Some? then FindKey(ledger, user, key)
            else if user == cmd.user && key == cmd.key then Some(rows[|rows| - 1])
            else None
  {
    var rows := PlanRows(cmd, plan, next);
    if |rows| == 1 {
      assert (ledger + rows)[..|ledger|] == ledger;
    } else {
      assert (ledger + rows)[..|ledger| + 1] == ledger + [rows[0]];
      assert (ledger + [rows[0]])[..|ledger|] == ledger;
    }
  }

  // ------------------------------------------------- what one command appends

  function NewUnlocks(cmd: Command, ledgerId: nat, spent: int): seq<UnlockRow> {
    match cmd.child
    case ChapterUnlock(chapter, _, _) => [UnlockRow(cmd.user, chapter, ToInt16(spent), ledgerId, cmd.now)]
    case ArcBundle(items) => ItemUnlocks(cmd, items, ledgerId)
    case _ => []
  }

  function NewEarnings(cmd: Command, ledgerId: nat, spent: int): seq<EarningRow> {
    match cmd.child
    case ChapterUnlock(chapter, writer, net) =>
      if writer != 0 then [EarningRow(writer, chapter, ledgerId, spent, net, EarningUnlock, cmd.now)] else []
    case ArcBundle(items) => ItemEarnings(cmd, items, ledgerId)
    case TipChild(chapter, writer, net) => [EarningRow(writer, chapter, ledgerId, spent, net, EarningTip, cmd.now)]
    case _ => []
  }

  lemma ChildRows(s: State, cmd: Command, ledgerId: nat, entry: Entry)
    requires WriteChild(s, cmd, ledgerId, entry).Ok?
    ensures var s', spent := WriteChild(s, cmd, ledgerId, entry).value, -(entry.delta + entry.bonusDelta);
            && s'.unlocks == s.unlocks + NewUnlocks(cmd, ledgerId, spent)
            && s'.earnings == s.earnings + NewEarnings(cmd, ledgerId, spent)
            && (UniqueUnlocks(s.unlocks) ==> UniqueUnlocks(s'.unlocks))
            && (!cmd.child.PurchaseComplete? ==> s'.purchases == s.purchases)
            && (cmd.child.PurchaseComplete? ==>
                  && 1 <= cmd.child.purchase <= |s.purchases|
                  && s.purchases[cmd.child.purchase - 1].status == Pending
                  && s'.purchases == s.purchases[cmd.child.purchase - 1 :=
                       s.purchases[cmd.child.purchase - 1].(status := Succeeded, ledgerId := Some(ledgerId))])
  {
    var spent := -(entry.delta + entry.bonusDelta);
    if cmd.child.ChapterUnlock? || cmd.child.ArcBundle? {
      InsertUnlocksResult(s.unlocks, NewUnlocks(cmd, ledgerId, spent));
    } else {
      assert s.unlocks + [] == s.unlocks;
    }
    assert s.earnings + [] == s.earnings;
  }

  // --------------------------------------------------------- sums over tables

  lemma {:induction false} CoinsForAppend(a: seq<UnlockRow>, b: seq<UnlockRow>, id: nat)
    ensures CoinsFor(a + b, id) == CoinsFor(a, id) + CoinsFor(b, id)
  {
    if b == [] {
      assert a + b == a;
    } else {
      assert (a + b)[..|a + b| - 1] == a + b[..|b| - 1];
      CoinsForAppend(a, b[..|b| - 1], id);
    }
  }

  lemma {:induction false} CoinsForNobody(a: seq<UnlockRow>, id: nat)
    requires forall u :: u in a ==> u.ledgerId != id
    ensures CoinsFor(a, id) == 0
  {
    if a != [] {
      CoinsForNobody(a[..|a| - 1], id);
    }
  }

  /** The narrowing to 16 bits loses no coin: each share is at most a stored price. */
  lemma {:induction false} CoinsForItems(cmd: Command, items: seq<Item>, id: nat)
    requires forall item :: item in items ==> 0 <= item.coins <= MAX_INT16
    ensures CoinsFor(ItemUnlocks(cmd, items, id), id) == Allocated(items)
  {
    if items != [] {
      var init := items[..|items| - 1];
      var rows := ItemUnlocks(cmd, items, id);
      assert rows[..|rows| - 1] == ItemUnlocks(cmd, init, id);
      assert items[|items| - 1] in items;
      CoinsForItems(cmd, init, id);
    }
  }

  lemma {:induction false} TipsForAppend(a: seq<EarningRow>, b: seq<EarningRow>, id: nat)
    ensures TipsFor(a + b, id) == TipsFor(a, id) + TipsFor(b, id)
  {
    if b == [] {
      assert a + b == a;
    } else {
      assert (a + b)[..|a + b| - 1] == a + b[..|b| - 1];
      TipsForAppend(a, b[..|b| - 1], id);
    }
  }

  lemma {:induction false} TipsForNobody(a: seq<EarningRow>, id: nat)
    requires forall e :: e in a ==> e.kind != EarningTip || e.ledgerId != id
    ensures TipsFor(a, id) == []
  {
    if a != [] {
      TipsForNobody(a[..|a| - 1], id);
    }
  }

  lemma {:induction false} ItemEarningsExplained(cmd: Command, items: seq<Item>, id: nat, e: EarningRow)
    requires e in ItemEarnings(cmd, items, id)
    requires forall item :: item in items ==> 0 <= item.coins <= MAX_INT16
    ensures e.kind == EarningUnlock && e.ledgerId == id
    ensures exists u :: u in ItemUnlocks(cmd, items, id) && u.ledgerId == id && Pays(u, e)
  {
    var n := |items| - 1;
    var rows := ItemUnlocks(cmd, items, id);
    assert rows[..n] == ItemUnlocks(cmd, items[..n], id);
    if e in ItemEarnings(cmd, items[..n], id) {
      ItemEarningsExplained(cmd, items[..n], id, e);
      var u :| u in rows[..n] && u.ledgerId == id && Pays(u, e);
      assert u in rows;
    } else {
      assert items[n] in items;
      assert rows[n] in rows;
    }
  }

  lemma {:induction false} CreditsForAppend(a: seq<LedgerRow>, b: seq<LedgerRow>, p: int)
    ensures CreditsFor(a + b, p) == CreditsFor(a, p) + CreditsFor(b, p)
  {
    if b == [] {
      assert a + b == a;
    } else {
      assert (a + b)[..|a + b| - 1] == a + b[..|b| - 1];
      CreditsForAppend(a, b[..|b| - 1], p);
    }
  }

  // ------------------------------------------------------------ preservation

  /** The unlock rows a service command appends name its ledger row, its reader and, for one chapter, that chapter. */
  lemma NewUnlocksNamed(cmd: Command, ledgerId: nat, spent: int)
    requires ServiceShaped(cmd)
    ensures forall u :: u in NewUnlocks(cmd, ledgerId, spent) ==>
              && u.ledgerId == ledgerId && u.user == cmd.user && cmd.op.kind == SpendUnlock
              && (cmd.op.refType != RefArcBundle ==> cmd.op.refId == Some(u.chapter))
  {
  }

  /** The earnings a service command appends name its ledger row; an unlock's earning is an unlock's coins. */
  lemma NewEarningsNamed(cmd: Command, ledgerId: nat, spent: int)
    requires ServiceShaped(cmd)
    requires cmd.op.kind == SpendUnlock ==> spent == cmd.op.amount
    ensures forall e :: e in NewEarnings(cmd, ledgerId, spent) ==>
              && e.ledgerId == ledgerId && (e.kind == EarningTip <==> cmd.op.kind == Tip)
              && (e.kind == EarningUnlock ==>
                    exists u :: u in NewUnlocks(cmd, ledgerId, spent) && u.ledgerId == ledgerId && Pays(u, e))
  {
    var unlocks, earnings := NewUnlocks(cmd, ledgerId, spent), NewEarnings(cmd, ledgerId, spent);
    match cmd.child
    case ChapterUnlock(_, _, _) =>
      assert unlocks[0] in unlocks;
    case ArcBundle(items) =>
      forall e | e in earnings
        ensures e.kind == EarningUnlock && e.ledgerId == ledgerId
        ensures exists u :: u in unlocks && u.ledgerId == ledgerId && Pays(u, e)
      {
        ItemEarningsExplained(cmd, items, ledgerId, e);
      }
    case _ =>
  }

  /** The rows a service command appends account for its own debit. */
  lemma NewRowsExplained(cmd: Command, ledgerId: nat, spent: int)
    requires ServiceShaped(cmd)
    requires cmd.op.kind == SpendUnlock ==> spent == cmd.op.amount
    ensures CoinsFor(NewUnlocks(cmd, ledgerId, spent), ledgerId) == if cmd.op.kind == SpendUnlock then spent else 0
    ensures TipsFor(NewEarnings(cmd, ledgerId, spent), ledgerId) == if cmd.op.kind == Tip then [spent] else []
    ensures cmd.op.kind == SpendUnlock && cmd.op.refType != RefArcBundle ==> |NewUnlocks(cmd, ledgerId, spent)| == 1
  {
    match cmd.child
    case ArcBundle(items) =>
      CoinsForItems(cmd, items, ledgerId);
      NoTipsInBundle(cmd, items, ledgerId);
    case _ =>
  }

  lemma NoTipsInBundle(cmd: Command, items: seq<Item>, ledgerId: nat)
    requires forall item :: item in items ==> 0 <= item.coins <= MAX_INT16
    ensures TipsFor(ItemEarnings(cmd, items, ledgerId), ledgerId) == []
  {
    var earnings := ItemEarnings(cmd, items, ledgerId);
    forall e | e in earnings
      ensures e.kind != EarningTip
    {
      ItemEarningsExplained(cmd, items, ledgerId, e);
    }
    TipsForNobody(earnings, ledgerId);
  }

  /** What one posted service command leaves behind, with the appended rows spelled out. */
  ghost predicate Appends(s: State, s': State, cmd: Command, rows: seq<LedgerRow>, spent: int) {
    && 1 <= |rows| <= 2
    && s'.ledger == s.ledger + rows
    && (forall i :: 0 <= i < |rows| ==> rows[i].id == |s.ledger| + 1 + i && rows[i].user == cmd.user)
    && (|rows| == 2 ==> rows[0].kind == BonusExpire)
    && var main := rows[|rows| - 1];
       && main.kind == cmd.op.kind && main.refType == cmd.op.refType && main.refId == cmd.op.refId
       && Debit(main, spent)
       && s'.unlocks == s.unlocks + NewUnlocks(cmd, main.id, spent)
       && s'.earnings == s.earnings + NewEarnings(cmd, main.id, spent)
       && UniqueUnlocks(s'.unlocks)
  }

  lemma AppendsFromParts(s: State, s': State, posted: State, cmd: Command, plan: Plan, rows: seq<LedgerRow>,
        ledgerId: nat, spent: int)
    requires rows == PlanRows(cmd, plan, |s.ledger| + 1) && ledgerId == |s.ledger| + |rows|
    requires plan.entry.kind == cmd.op.kind && (plan.expiry.Some? ==> plan.expiry.value.kind == BonusExpire)
    requires spent == -(plan.entry.delta + plan.entry.bonusDelta)
    requires s'.ledger == s.ledger + rows && UniqueUnlocks(s.unlocks)
    requires posted.unlocks == s.unlocks && posted.earnings == s.earnings
    requires WriteChild(posted, cmd, ledgerId, plan.entry) == Ok(s')
    ensures Appends(s, s', cmd, rows, spent)
  {
    ChildRows(posted, cmd, ledgerId, plan.entry);
  }

  /** A posted service command debits what it asks for. */
  lemma PlanDebits(bal: Balance, cmd: Command, plan: Plan)
    requires bal.Healthy() && PlanFor(bal, cmd) == Ok(plan)
    ensures plan.entry.kind == cmd.op.kind && (plan.expiry.Some? ==> plan.expiry.value.kind == BonusExpire)
    ensures cmd.op.kind == SpendUnlock || cmd.op.kind == Tip ==>
              -(plan.entry.delta + plan.entry.bonusDelta) == cmd.op.amount
  {
  }

  lemma AppendsExplainsOldRow(s: State, s': State, cmd: Command, rows: seq<LedgerRow>, spent: int, row: LedgerRow)
    requires RowExplained(s, row) && 1 <= row.id <= |s.ledger|
    requires Appends(s, s', cmd, rows, spent) && ServiceShaped(cmd)
    requires cmd.op.kind == SpendUnlock ==> spent == cmd.op.amount
    ensures RowExplained(s', row)
  {
    var main := rows[|rows| - 1];
    var unlocks, earnings := NewUnlocks(cmd, main.id, spent), NewEarnings(cmd, main.id, spent);
    NewUnlocksNamed(cmd, main.id, spent);
    NewEarningsNamed(cmd, main.id, spent);
    CoinsForAppend(s.unlocks, unlocks, row.id);
    CoinsForNobody(unlocks, row.id);
    TipsForAppend(s.earnings, earnings, row.id);
    TipsForNobody(earnings, row.id);
  }

  /** No child row names a ledger row that is not there yet. */
  lemma NobodyNamesANewRow(s: State, id: nat)
    requires Conserved(s) && id > |s.ledger|
    ensures CoinsFor(s.unlocks, id) == 0 && TipsFor(s.earnings, id) == []
  {
    CoinsForNobody(s.unlocks, id);
    TipsForNobody(s.earnings, id);
  }

  /** A write-off that precedes the main row is named by no child row at all. */
  lemma AppendsExplainsWriteOff(s: State, s': State, cmd: Command, rows: seq<LedgerRow>, spent: int)
    requires Appends(s, s', cmd, rows, spent) && ServiceShaped(cmd) && |rows| == 2
    requires TipsFor(s.earnings, rows[0].id) == []
    requires cmd.op.kind == SpendUnlock ==> spent == cmd.op.amount
    ensures RowExplained(s', rows[0])
  {
    var id, id' := rows[0].id, rows[1].id;
    NewEarningsNamed(cmd, id', spent);
    TipsForAppend(s.earnings, NewEarnings(cmd, id', spent), id);
    TipsForNobody(NewEarnings(cmd, id', spent), id);
  }

  lemma AppendsExplainsMainRow(s: State, s': State, cmd: Command, rows: seq<LedgerRow>, spent: int, main: LedgerRow)
    requires Appends(s, s', cmd, rows, spent) && ServiceShaped(cmd) && main == rows[|rows| - 1]
    requires CoinsFor(s.unlocks, main.id) == 0 && TipsFor(s.earnings, main.id) == []
    requires cmd.op.kind == SpendUnlock ==> spent == cmd.op.amount
    ensures RowExplained(s', main)
  {
    var unlocks, earnings := NewUnlocks(cmd, main.id, spent), NewEarnings(cmd, main.id, spent);
    NewRowsExplained(cmd, main.id, spent);
    CoinsForAppend(s.unlocks, unlocks, main.id);
    TipsForAppend(s.earnings, earnings, main.id);
    if main.kind == SpendUnlock && main.refType != RefArcBundle {
      NewUnlocksNamed(cmd, main.id, spent);
      assert unlocks[0] in unlocks;
      assert unlocks[0] in s'.unlocks;
    }
  }

  lemma AppendsExplainsRow(s: State, s': State, cmd: Command, rows: seq<LedgerRow>, spent: int, row: LedgerRow)
    requires Conserved(s) && Appends(s, s', cmd, rows, spent) && ServiceShaped(cmd)
    requires cmd.op.kind == SpendUnlock ==> spent == cmd.op.amount
    requires row in s.ledger || row in rows
    ensures RowExplained(s', row)
  {
    if row in s.ledger {
      assert 1 <= row.id <= |s.ledger| by {
        var i :| 0 <= i < |s.ledger| && s.ledger[i] == row;
      }
      AppendsExplainsOldRow(s, s', cmd, rows, spent, row);
    } else {
      NobodyNamesANewRow(s, row.id);
      if row == rows[|rows| - 1] {
        AppendsExplainsMainRow(s, s', cmd, rows, spent, row);
      } else {
        AppendsExplainsWriteOff(s, s', cmd, rows, spent);
      }
    }
  }

  lemma AppendsExplainsRows(s: State, s': State, cmd: Command, rows: seq<LedgerRow>, spent: int)
    requires Conserved(s) && Appends(s, s', cmd, rows, spent) && ServiceShaped(cmd)
    requires cmd.op.kind == SpendUnlock ==> spent == cmd.op.amount
    ensures forall row :: row in s'.ledger ==> RowExplained(s', row)
  {
    assert forall row :: row in s'.ledger ==> row in s.ledger || row in rows;
    forall row | row in s'.ledger
      ensures RowExplained(s', row)
    {
      AppendsExplainsRow(s, s', cmd, rows, spent, row);
    }
  }

  lemma AppendsExplainsUnlocks(s: State, s': State, cmd: Command, rows: seq<LedgerRow>, spent: int)
    requires Appends(s, s', cmd, rows, spent) && ServiceShaped(cmd)
    requires forall u :: u in s.unlocks ==> UnlockExplained(s.ledger, u)
    ensures forall u :: u in s'.unlocks ==> UnlockExplained(s'.ledger, u)
  {
    var main := rows[|rows| - 1];
    NewUnlocksNamed(cmd, main.id, spent);
    assert s'.ledger[main.id - 1] == main;
    forall u | u in s'.unlocks
      ensures UnlockExplained(s'.ledger, u)
    {
      if u in s.unlocks {
        assert s'.ledger[u.ledgerId - 1] == s.ledger[u.ledgerId - 1];
      }
    }
  }

  lemma AppendsExplainsEarnings(s: State, s': State, cmd: Command, rows: seq<LedgerRow>, spent: int)
    requires Appends(s, s', cmd, rows, spent) && ServiceShaped(cmd)
    requires cmd.op.kind == SpendUnlock ==> spent == cmd.op.amount
    requires forall e :: e in s.earnings ==> EarningExplained(s.ledger, s.unlocks, e)
    ensures forall e :: e in s'.earnings ==> EarningExplained(s'.ledger, s'.unlocks, e)
  {
    var main := rows[|rows| - 1];
    NewEarningsNamed(cmd, main.id, spent);
    forall e | e in s'.earnings
      ensures EarningExplained(s'.ledger, s'.unlocks, e)
    {
      if e in s.earnings {
        if e.kind == EarningUnlock {
          var u :| u in s.unlocks && u.ledgerId == e.ledgerId && Pays(u, e);
          assert u in s'.unlocks;
        }
      } else if e.kind == EarningUnlock {
        var u :| u in NewUnlocks(cmd, main.id, spent) && u.ledgerId == main.id && Pays(u, e);
        assert u in s'.unlocks;
      }
    }
  }

  lemma AppendsConserves(s: State, s': State, cmd: Command, rows: seq<LedgerRow>, spent: int)
    requires Conserved(s) && Appends(s, s', cmd, rows, spent) && ServiceShaped(cmd)
    requires cmd.op.kind == SpendUnlock ==> spent == cmd.op.amount
    ensures Conserved(s')
  {
    AppendsExplainsUnlocks(s, s', cmd, rows, spent);
    AppendsExplainsEarnings(s, s', cmd, rows, spent);
    AppendsExplainsRows(s, s', cmd, rows, spent);
  }
}
