/** What writers earn, over every run of the service: never twice for one sale, never more than the reader paid. */
module Earnings {
  import opened Prelude
  import opened Coins
  import opened Store
  import opened LedgerTotals
  import opened Conservation
  import opened ExactlyOnce
  import Service

  /** The shares a command hands on are parts of what it charges. */
  predicate FairShares(cmd: Command) {
    match cmd.child
    case ChapterUnlock(_, _, net) => 0 <= net <= cmd.op.amount
    case TipChild(_, _, net) => 0 <= net <= cmd.op.amount
    case ArcBundle(items) => forall item :: item in items ==> 0 <= item.net <= item.coins
    case _ => true
  }

  ghost predicate FairRun(events: seq<Event>) {
    ServiceRun(events) && forall e :: e in events && e.Coin? ==> FairShares(e.cmd)
  }

  // -------------------------------------------------------------- the accounts

  /** What the earnings naming a ledger row were charged. */
  function GrossFor(earnings: seq<EarningRow>, ledgerId: nat): int {
    if earnings == [] then 0
    else
      var last := earnings[|earnings| - 1];
      GrossFor(earnings[..|earnings| - 1], ledgerId) + if last.ledgerId == ledgerId then last.gross else 0
  }

  /** What the writers named by those earnings receive. */
  function NetFor(earnings: seq<EarningRow>, ledgerId: nat): int {
    if earnings == [] then 0
    else
      var last := earnings[|earnings| - 1];
      NetFor(earnings[..|earnings| - 1], ledgerId) + if last.ledgerId == ledgerId then last.net else 0
  }

  predicate PaidInPart(e: EarningRow) {
    0 <= e.net <= e.gross
  }

  /** The coins a ledger row took from a reader for chapters or as a tip. */
  function Paid(row: LedgerRow): int {
    if row.kind == SpendUnlock || row.kind == Tip then -(row.delta + row.bonusDelta) else 0
  }

  ghost predicate UniqueEarnings(earnings: seq<EarningRow>) {
    forall i, j :: 0 <= i < j < |earnings| ==>
      !(earnings[i].ledgerId == earnings[j].ledgerId && earnings[i].chapter == earnings[j].chapter)
  }

  ghost predicate Fair(s: State) {
    && UniqueEarnings(s.earnings)
    && (forall e :: e in s.earnings ==> PaidInPart(e))
    && (forall row :: row in s.ledger ==> GrossFor(s.earnings, row.id) <= Paid(row))
  }

  lemma {:induction false} GrossForAppend(a: seq<EarningRow>, b: seq<EarningRow>, id: nat)
    ensures GrossFor(a + b, id) == GrossFor(a, id) + GrossFor(b, id)
  {
    if b == [] {
      assert a + b == a;
    } else {
      assert (a + b)[..|a + b| - 1] == a + b[..|b| - 1];
      GrossForAppend(a, b[..|b| - 1], id);
    }
  }

  lemma {:induction false} GrossForNobody(a: seq<EarningRow>, id: nat)
    requires forall e :: e in a ==> e.ledgerId != id
    ensures GrossFor(a, id) == 0
  {
    if a != [] {
      GrossForNobody(a[..|a| - 1], id);
    }
  }

  lemma {:induction false} NetIsPart(a: seq<EarningRow>, id: nat)
    requires forall e :: e in a ==> PaidInPart(e)
    ensures 0 <= NetFor(a, id) <= GrossFor(a, id)
  {
    if a != [] {
      assert a[|a| - 1] in a;
      NetIsPart(a[..|a| - 1], id);
    }
  }

  // ------------------------------------------------------ what one command adds

  lemma {:induction false} ItemsGross(cmd: Command, items: seq<Item>, id: nat)
    requires forall item :: item in items ==> item.coins >= 0
    ensures GrossFor(ItemEarnings(cmd, items, id), id) <= Allocated(items)
  {
    if items != [] {
      var n := |items| - 1;
      assert items[n] in items;
      ItemsGross(cmd, items[..n], id);
      var earlier, all := ItemEarnings(cmd, items[..n], id), ItemEarnings(cmd, items, id);
      assert all != earlier ==> all[..|all| - 1] == earlier;
    }
  }

  lemma NewGross(cmd: Command, id: nat, spent: int)
    requires ServiceShaped(cmd) && (cmd.op.kind == SpendUnlock ==> spent == cmd.op.amount)
    ensures GrossFor(NewEarnings(cmd, id, spent), id)
              <= if cmd.op.kind == SpendUnlock || cmd.op.kind == Tip then spent else 0
  {
    if cmd.child.ArcBundle? {
      ItemsGross(cmd, cmd.child.items, id);
    } else {
      assert forall e: EarningRow :: [e][..0] == [];
    }
  }

  lemma {:induction false} ItemEarningsNamed(cmd: Command, items: seq<Item>, id: nat, e: EarningRow) returns (i: nat)
    requires e in ItemEarnings(cmd, items, id)
    ensures i < |items| && e.chapter == items[i].chapter && e.gross == items[i].coins && e.net == items[i].net
    ensures e.ledgerId == id
  {
    var n := |items| - 1;
    if e in ItemEarnings(cmd, items[..n], id) {
      i := ItemEarningsNamed(cmd, items[..n], id, e);
    } else {
      i := n;
    }
  }

  lemma NewIsPaidInPart(cmd: Command, id: nat, spent: int, e: EarningRow)
    requires FairShares(cmd) && ServiceShaped(cmd) && e in NewEarnings(cmd, id, spent)
    requires cmd.op.kind == SpendUnlock || cmd.op.kind == Tip ==> spent == cmd.op.amount
    ensures PaidInPart(e)
  {
    if cmd.child.ArcBundle? {
      var i := ItemEarningsNamed(cmd, cmd.child.items, id, e);
      assert cmd.child.items[i] in cmd.child.items;
    }
  }

  lemma {:induction false} ItemEarningsUnique(cmd: Command, items: seq<Item>, id: nat)
    requires forall i, j :: 0 <= i < j < |items| ==> items[i].chapter != items[j].chapter
    ensures UniqueEarnings(ItemEarnings(cmd, items, id))
  {
    if items != [] {
      var n := |items| - 1;
      var earlier := ItemEarnings(cmd, items[..n], id);
      ItemEarningsUnique(cmd, items[..n], id);
      forall k | 0 <= k < |earlier|
        ensures earlier[k].chapter != items[n].chapter
      {
        var i := ItemEarningsNamed(cmd, items[..n], id, earlier[k]);
      }
    }
  }

  /** One unlock row for each item, under one key, so no chapter is listed twice. */
  lemma ItemsDistinct(unlocks: seq<UnlockRow>, cmd: Command, items: seq<Item>, id: nat, i: nat, j: nat)
    requires UniqueUnlocks(unlocks + ItemUnlocks(cmd, items, id)) && i < j < |items|
    ensures items[i].chapter != items[j].chapter
  {
    var all := unlocks + ItemUnlocks(cmd, items, id);
    assert all[|unlocks| + i].chapter == items[i].chapter && all[|unlocks| + j].chapter == items[j].chapter;
    assert all[|unlocks| + i].user == all[|unlocks| + j].user;
  }

  lemma NewEarningsUnique(unlocks: seq<UnlockRow>, cmd: Command, id: nat, spent: int)
    requires UniqueUnlocks(unlocks + NewUnlocks(cmd, id, spent))
    ensures UniqueEarnings(NewEarnings(cmd, id, spent))
  {
    if cmd.child.ArcBundle? {
      var items := cmd.child.items;
      forall i, j | 0 <= i < j < |items|
        ensures items[i].chapter != items[j].chapter
      {
        ItemsDistinct(unlocks, cmd, items, id, i, j);
      }
      ItemEarningsUnique(cmd, items, id);
    }
  }

  // -------------------------------------------------------------- preservation

  lemma AppendsKeepsUnique(s: State, s': State, cmd: Command, rows: seq<LedgerRow>, spent: int)
    requires Conserved(s) && Appends(s, s', cmd, rows, spent) && ServiceShaped(cmd) && UniqueEarnings(s.earnings)
    requires cmd.op.kind == SpendUnlock ==> spent == cmd.op.amount
    ensures UniqueEarnings(s'.earnings)
  {
    var id := rows[|rows| - 1].id;
    var more := NewEarnings(cmd, id, spent);
    NewEarningsNamed(cmd, id, spent);
    NewEarningsUnique(s.unlocks, cmd, id, spent);
    forall i, j | 0 <= i < j < |s'.earnings|
      ensures !(s'.earnings[i].ledgerId == s'.earnings[j].ledgerId && s'.earnings[i].chapter == s'.earnings[j].chapter)
    {
      if i < |s.earnings| <= j {
        assert EarningExplained(s.ledger, s.unlocks, s.earnings[i]);
        assert more[j - |s.earnings|] in more;
      }
    }
  }

  lemma AppendsKeepsParts(s: State, s': State, cmd: Command, rows: seq<LedgerRow>, spent: int)
    requires Appends(s, s', cmd, rows, spent) && ServiceShaped(cmd) && FairShares(cmd)
    requires cmd.op.kind == SpendUnlock || cmd.op.kind == Tip ==> spent == cmd.op.amount
    requires forall e :: e in s.earnings ==> PaidInPart(e)
    ensures forall e :: e in s'.earnings ==> PaidInPart(e)
  {
    forall e | e in s'.earnings
      ensures PaidInPart(e)
    {
      if e !in s.earnings {
        NewIsPaidInPart(cmd, rows[|rows| - 1].id, spent, e);
      }
    }
  }

  /** Earnings already there name earlier rows, and new ones the main row of their own command. */
  lemma GrossAfter(s: State, s': State, cmd: Command, rows: seq<LedgerRow>, spent: int, id: nat)
    requires Conserved(s) && Appends(s, s', cmd, rows, spent) && ServiceShaped(cmd)
    requires cmd.op.kind == SpendUnlock ==> spent == cmd.op.amount
    ensures id <= |s.ledger| ==> GrossFor(s'.earnings, id) == GrossFor(s.earnings, id)
    ensures id > |s.ledger| && id != rows[|rows| - 1].id ==> GrossFor(s'.earnings, id) == 0
    ensures id == rows[|rows| - 1].id ==> GrossFor(s'.earnings, id) == GrossFor(NewEarnings(cmd, id, spent), id)
  {
    var main := rows[|rows| - 1].id;
    NewEarningsNamed(cmd, main, spent);
    GrossForAppend(s.earnings, NewEarnings(cmd, main, spent), id);
    if id != main {
      GrossForNobody(NewEarnings(cmd, main, spent), id);
    }
    if id > |s.ledger| {
      assert forall e :: e in s.earnings ==> EarningExplained(s.ledger, s.unlocks, e);
      GrossForNobody(s.earnings, id);
    }
  }

  lemma AppendsKeepsRow(s: State, s': State, cmd: Command, rows: seq<LedgerRow>, spent: int, row: LedgerRow)
    requires Conserved(s) && Appends(s, s', cmd, rows, spent) && ServiceShaped(cmd)
    requires cmd.op.kind == SpendUnlock ==> spent == cmd.op.amount
    requires row in rows || (row in s.ledger && GrossFor(s.earnings, row.id) <= Paid(row))
    ensures GrossFor(s'.earnings, row.id) <= Paid(row)
  {
    GrossAfter(s, s', cmd, rows, spent, row.id);
    if row in rows {
      NewGross(cmd, row.id, spent);
      assert row.id > |s.ledger|;
    } else {
      assert row.id <= |s.ledger| by {
        var i :| 0 <= i < |s.ledger| && s.ledger[i] == row;
      }
    }
  }

  lemma AppendsKeepsFair(s: State, s': State, cmd: Command, rows: seq<LedgerRow>, spent: int)
    requires Conserved(s) && Appends(s, s', cmd, rows, spent) && ServiceShaped(cmd) && FairShares(cmd) && Fair(s)
    requires cmd.op.kind == SpendUnlock || cmd.op.kind == Tip ==> spent == cmd.op.amount
    ensures Fair(s')
  {
    AppendsKeepsUnique(s, s', cmd, rows, spent);
    AppendsKeepsParts(s, s', cmd, rows, spent);
    assert forall row :: row in s'.ledger ==> row in s.ledger || row in rows;
    forall row | row in s'.ledger
      ensures GrossFor(s'.earnings, row.id) <= Paid(row)
    {
      AppendsKeepsRow(s, s', cmd, rows, spent, row);
    }
  }

  lemma CommandKeepsFair(s: State, cmd: Command)
    requires WalletOf(s, cmd.user).Healthy() && Conserved(s) && ServiceShaped(cmd) && FairShares(cmd) && Fair(s)
    ensures Fair(Apply(s, cmd).state)
  {
    var o := Apply(s, cmd);
    var plan := ApplyShape(s, cmd);
    if plan.Some? {
      var rows, spent := PostedRows(s, cmd, plan.value, o);
      AppendsKeepsFair(s, o.state, cmd, rows, spent);
    }
  }

  lemma StepKeepsFair(s: State, e: Event)
    requires Reconciled(s) && Conserved(s) && Fair(s) && (e.Coin? ==> ServiceShaped(e.cmd) && FairShares(e.cmd))
    ensures Fair(Step(s, e))
  {
    if e.Coin? {
      assert WalletOf(s, e.cmd.user).Healthy();
      CommandKeepsFair(s, e.cmd);
    }
  }

  lemma {:induction false} EveryRunIsFair(catalog: Catalog, events: seq<Event>)
    requires FairRun(events)
    ensures Fair(Run(Initial(catalog), events))
  {
    if events != [] {
      var init, last := events[..|events| - 1], events[|events| - 1];
      assert last in events;
      EveryRunIsFair(catalog, init);
      EveryRunConserves(catalog, init);
      EveryRunReconciles(catalog, init);
      StepKeepsFair(Run(Initial(catalog), init), last);
    }
  }

  /**
    Over every run of the service, what writers receive for a ledger row is part of what they
    are credited with, and that is no more than the row took from its reader; a row that is
    neither a purchase of chapters nor a tip earns nobody anything.
   */
  lemma WritersGetAtMostWhatReadersPay(catalog: Catalog, events: seq<Event>, row: LedgerRow)
    requires FairRun(events) && row in Run(Initial(catalog), events).ledger
    ensures var earnings := Run(Initial(catalog), events).earnings;
            0 <= NetFor(earnings, row.id) <= GrossFor(earnings, row.id) <= Paid(row)
  {
    EveryRunIsFair(catalog, events);
    NetIsPart(Run(Initial(catalog), events).earnings, row.id);
  }

  /** No sale is credited twice: two unlock earnings that stand for one unlock row are the same entry. */
  lemma CreditedAtMostOnce(catalog: Catalog, events: seq<Event>, u: UnlockRow, i: nat, j: nat)
    requires FairRun(events)
    requires var s := Run(Initial(catalog), events);
             && u in s.unlocks && i < |s.earnings| && j < |s.earnings|
             && s.earnings[i].ledgerId == u.ledgerId == s.earnings[j].ledgerId
             && Pays(u, s.earnings[i]) && Pays(u, s.earnings[j])
    ensures i == j
  {
    EveryRunIsFair(catalog, events);
  }

  // ------------------------------------------------------------- the use cases

  lemma UseCasesAreFair(s: State, user: UserId, id: int, key: string, now: Instant, fee: int, n: int)
    ensures var built := Service.UnlockChapter(s.catalog, user, id, key, now, fee);
            built.Ok? ==> FairShares(built.value)
    ensures var built := Service.AutoUnlockChapter(s.catalog, user, id, now, fee);
            built.Ok? ==> FairShares(built.value)
    ensures var built := Service.TipChapter(s.catalog, user, id, n, key, now, fee);
            built.Ok? ==> FairShares(built.value)
  {
  }

  lemma BundlesAreFair(s: State, user: UserId, arc: int, listing: seq<Service.ChapterSale>, quotedAt: Instant, fee: int,
        key: string, now: Instant)
    requires Service.QuoteArc(s, user, arc, listing, quotedAt, fee).Ok?
    ensures var quote := Service.QuoteArc(s, user, arc, listing, quotedAt, fee).value;
            FairShares(Service.UnlockArc(user, arc, quote, key, now))
  {
    Service.QuotedItemsFit(s, user, arc, listing, quotedAt, fee);
  }
}
