/** Paging through a ledger by key while other commands keep appending to it. */
module LedgerPages {
  import opened Prelude
  import opened Coins
  import opened Store
  import opened LedgerTotals

  datatype Key = Key(createdAt: int, id: int)

  /** What a row is ordered and paged by. */
  function KeyOf(row: LedgerRow): Key {
    Key(row.createdAt, row.id)
  }

  /** The order of `(created_at, id)`. */
  predicate Less(a: Key, b: Key) {
    a.createdAt < b.createdAt || (a.createdAt == b.createdAt && a.id < b.id)
  }

  /** Row ids are a primary key. */
  ghost predicate UniqueIds(rows: seq<LedgerRow>) {
    forall i, j :: 0 <= i < j < |rows| ==> rows[i].id != rows[j].id
  }

  /** Newest first, no two alike. */
  ghost predicate Descends(rows: seq<LedgerRow>) {
    forall i, j :: 0 <= i < j < |rows| ==> Less(KeyOf(rows[j]), KeyOf(rows[i]))
  }

  // ------------------------------------------------------------------ one page

  /** The filter of the query: the user's rows, strictly below the cursor when there is one. */
  predicate Wanted(row: LedgerRow, user: UserId, cursor: Option<Key>) {
    row.user == user && (cursor.Some? ==> Less(KeyOf(row), cursor.value))
  }

  function Matching(rows: seq<LedgerRow>, user: UserId, cursor: Option<Key>): (r: seq<LedgerRow>)
    ensures forall row :: row in r <==> row in rows && Wanted(row, user, cursor)
  {
    if rows == [] then []
    else
      var init := Matching(rows[..|rows| - 1], user, cursor);
      assert rows == rows[..|rows| - 1] + [rows[|rows| - 1]];
      if Wanted(rows[|rows| - 1], user, cursor) then init + [rows[|rows| - 1]] else init
  }

  lemma {:induction false} MatchingIsUnique(rows: seq<LedgerRow>, user: UserId, cursor: Option<Key>)
    requires UniqueIds(rows)
    ensures UniqueIds(Matching(rows, user, cursor))
  {
    if rows != [] {
      var init, last := rows[..|rows| - 1], rows[|rows| - 1];
      MatchingIsUnique(init, user, cursor);
      forall row | row in Matching(init, user, cursor)
        ensures row.id != last.id
      {
        var i :| 0 <= i < |init| && init[i] == row;
        assert rows[i] == row;
      }
    }
  }

  function Insert(row: LedgerRow, sorted: seq<LedgerRow>): (r: seq<LedgerRow>)
    ensures |r| == |sorted| + 1
    ensures forall x :: x in r <==> x == row || x in sorted
  {
    if sorted == [] then [row]
    else if Less(KeyOf(sorted[0]), KeyOf(row)) then [row] + sorted
    else [sorted[0]] + Insert(row, sorted[1..])
  }

  lemma {:induction false} InsertDescends(row: LedgerRow, sorted: seq<LedgerRow>)
    requires Descends(sorted) && forall x :: x in sorted ==> x.id != row.id
    ensures Descends(Insert(row, sorted))
  {
    if sorted != [] && !Less(KeyOf(sorted[0]), KeyOf(row)) {
      var rest := Insert(row, sorted[1..]);
      InsertDescends(row, sorted[1..]);
      forall x | x in rest
        ensures Less(KeyOf(x), KeyOf(sorted[0]))
      {
        if x != row {
          var i :| 0 <= i < |sorted[1..]| && sorted[1..][i] == x;
          assert x == sorted[i + 1];
        }
      }
    }
  }

  /** The query's `ORDER BY created_at DESC, id DESC`. */
  function Ordered(rows: seq<LedgerRow>): (r: seq<LedgerRow>)
    ensures |r| == |rows|
    ensures forall x :: x in r <==> x in rows
  {
    if rows == [] then []
    else
      assert rows == rows[..|rows| - 1] + [rows[|rows| - 1]];
      Insert(rows[|rows| - 1], Ordered(rows[..|rows| - 1]))
  }

  lemma {:induction false} OrderedDescends(rows: seq<LedgerRow>)
    requires UniqueIds(rows)
    ensures Descends(Ordered(rows))
  {
    if rows != [] {
      var init := rows[..|rows| - 1];
      OrderedDescends(init);
      forall x | x in Ordered(init)
        ensures x.id != rows[|rows| - 1].id
      {
        var i :| 0 <= i < |init| && init[i] == x;
      }
      InsertDescends(rows[|rows| - 1], Ordered(init));
    }
  }

  function Query(rows: seq<LedgerRow>, user: UserId, cursor: Option<Key>): seq<LedgerRow> {
    Ordered(Matching(rows, user, cursor))
  }

  function PageRows(rows: seq<LedgerRow>, user: UserId, cursor: Option<Key>, limit: nat): seq<LedgerRow> {
    var q := Query(rows, user, cursor);
    if |q| > limit then q[..limit] else q
  }

  function NextCursor(rows: seq<LedgerRow>, user: UserId, cursor: Option<Key>, limit: nat): Option<Key>
    requires limit >= 1
  {
    var q := Query(rows, user, cursor);
    if |q| > limit then Some(KeyOf(q[limit - 1])) else None
  }

  /** The limit the service asks for: always at least one row. */
  function Normalize(limit: int, fallback: int, max: int): (r: int)
    requires 1 <= fallback <= max
    ensures 1 <= r <= max
    ensures r == limit || (r == fallback && !(1 <= limit <= max))
    ensures 1 <= limit <= max ==> r == limit
  {
    if limit <= 0 || limit > max then fallback else limit
  }

  class Repository {
    var rows: seq<LedgerRow>

    constructor (rows: seq<LedgerRow>)
      ensures this.rows == rows
    {
      this.rows := rows;
    }

    /** One row beyond the page is fetched to learn whether there is another page. */
    method ListLedger(user: UserId, cursor: Option<Key>, limit: nat) returns (out: seq<LedgerRow>, next: Option<Key>)
      requires limit >= 1
      ensures out == PageRows(rows, user, cursor, limit) && next == NextCursor(rows, user, cursor, limit)
    {
      var q := Query(rows, user, cursor);
      var fetched := if |q| > limit + 1 then q[..limit + 1] else q;
      next := None;
      if |fetched| > limit {
        fetched := fetched[..limit];
        next := Some(KeyOf(fetched[|fetched| - 1]));
      }
      out := [];
      for i := 0 to |fetched|
        invariant out == fetched[..i]
      {
        out := out + [fetched[i]];
      }
    }
  }

  lemma InPrefixIff(q: seq<LedgerRow>, limit: nat, i: nat)
    requires Distinct(q) && i < |q| && limit <= |q|
    ensures q[i] in q[..limit] <==> i < limit
  {
    if q[i] in q[..limit] {
      var j :| 0 <= j < limit && q[..limit][j] == q[i];
      assert q[j] == q[i] && j == i;
    }
  }

  /** A page and its cursor cut the query in two: what is shown, and what lies below the cursor. */
  lemma PageCuts(rows: seq<LedgerRow>, user: UserId, cursor: Option<Key>, limit: nat, row: LedgerRow)
    requires limit >= 1 && UniqueIds(rows) && row in rows && Wanted(row, user, cursor)
    ensures var next := NextCursor(rows, user, cursor, limit);
            row in PageRows(rows, user, cursor, limit) <==> !(next.Some? && Wanted(row, user, next))
  {
    var q := Query(rows, user, cursor);
    MatchingIsUnique(rows, user, cursor);
    OrderedDescends(Matching(rows, user, cursor));
    var i :| 0 <= i < |q| && q[i] == row;
    if |q| > limit {
      NoneTwice(q);
      InPrefixIff(q, limit, i);
      if i < limit {
        assert i == limit - 1 || Less(KeyOf(q[limit - 1]), KeyOf(q[i]));
      }
    }
  }

  /** A page descends, shows only rows asked for, and ends where its cursor points. */
  lemma PageDescends(rows: seq<LedgerRow>, user: UserId, cursor: Option<Key>, limit: nat)
    requires limit >= 1 && UniqueIds(rows)
    ensures var shown := PageRows(rows, user, cursor, limit);
            && Descends(shown)
            && (forall x :: x in shown ==> x in rows && Wanted(x, user, cursor))
            && (NextCursor(rows, user, cursor, limit).Some? ==>
                 |shown| == limit && NextCursor(rows, user, cursor, limit).value == KeyOf(shown[limit - 1]))
  {
    var q := Query(rows, user, cursor);
    MatchingIsUnique(rows, user, cursor);
    OrderedDescends(Matching(rows, user, cursor));
    forall x | x in PageRows(rows, user, cursor, limit)
      ensures x in rows && Wanted(x, user, cursor)
    {
      assert x in q;
    }
  }

  /** Written earlier than the given moment, or at that moment under a smaller id. */
  predicate Older(row: LedgerRow, createdAt: int, id: int) {
    row.createdAt < createdAt || (row.createdAt == createdAt && row.id < id)
  }

  /** The rows a page may show. */
  function Eligible(rows: seq<LedgerRow>, user: UserId, cursor: Option<Key>): set<LedgerRow> {
    set row | row in rows && row.user == user
              && (cursor.Some? ==> Older(row, cursor.value.createdAt, cursor.value.id))
  }

  lemma QueryHoldsTheEligible(rows: seq<LedgerRow>, user: UserId, cursor: Option<Key>)
    requires UniqueIds(rows)
    ensures Descends(Query(rows, user, cursor)) && Distinct(Query(rows, user, cursor))
    ensures Elements(Query(rows, user, cursor)) == Eligible(rows, user, cursor)
    ensures |Query(rows, user, cursor)| == |Eligible(rows, user, cursor)|
  {
    var q := Query(rows, user, cursor);
    MatchingIsUnique(rows, user, cursor);
    OrderedDescends(Matching(rows, user, cursor));
    NoneTwice(q);
    DistinctByCount(q);
    assert forall row :: row in q <==> row in Eligible(rows, user, cursor);
    assert Elements(q) == Eligible(rows, user, cursor);
  }

  lemma PrefixIsInOrder(q: seq<LedgerRow>, shown: seq<LedgerRow>)
    requires Descends(q) && shown <= q
    ensures forall i, j :: 0 <= i < j < |shown| ==> Older(shown[j], shown[i].createdAt, shown[i].id)
  {
    assert forall i, j :: 0 <= i < j < |shown| ==> Less(KeyOf(q[j]), KeyOf(q[i]));
  }

  /** A page leaves out only what is older. */
  lemma PageIsNewest(q: seq<LedgerRow>, shown: seq<LedgerRow>, y: LedgerRow)
    requires Descends(q) && shown <= q && y in q && y !in shown
    ensures forall x :: x in shown ==> Older(y, x.createdAt, x.id)
  {
    var j :| 0 <= j < |q| && q[j] == y;
    forall x | x in shown
      ensures Older(y, x.createdAt, x.id)
    {
      var i :| 0 <= i < |shown| && shown[i] == x;
      assert forall k :: 0 <= k < |shown| ==> shown[k] == q[k] && shown[k] in shown;
      assert Less(KeyOf(q[j]), KeyOf(q[i]));
    }
  }

  /**
    One page, told without the query: eligible rows, newest first, none left out that is newer than one
    shown, as many as there are up to the limit, and a cursor at the last exactly when some are left.
   */
  lemma PageIsExact(rows: seq<LedgerRow>, user: UserId, cursor: Option<Key>, limit: nat, y: LedgerRow)
    requires limit >= 1 && UniqueIds(rows)
    ensures var shown, next := PageRows(rows, user, cursor, limit), NextCursor(rows, user, cursor, limit);
            var eligible := Eligible(rows, user, cursor);
            && (y in shown ==> y in eligible)
            && (forall i, j :: 0 <= i < j < |shown| ==> Older(shown[j], shown[i].createdAt, shown[i].id))
            && (y in eligible && y !in shown ==> forall x :: x in shown ==> Older(y, x.createdAt, x.id))
            && |shown| == (if |eligible| > limit then limit else |eligible|)
            && (next.Some? <==> |eligible| > limit)
            && (next.Some? ==> next.value == Key(shown[limit - 1].createdAt, shown[limit - 1].id))
  {
    var q, shown := Query(rows, user, cursor), PageRows(rows, user, cursor, limit);
    QueryHoldsTheEligible(rows, user, cursor);
    assert y in q <==> y in Elements(q);
    PrefixIsInOrder(q, shown);
    if y in q && y !in shown {
      PageIsNewest(q, shown, y);
    }
  }

  // ------------------------------------------------------------- following them

  /** The ledger as each page found it: rows are only ever appended. */
  ghost predicate Growing(ledgers: seq<seq<LedgerRow>>) {
    forall i, j :: 0 <= i <= j < |ledgers| ==> ledgers[i] <= ledgers[j] && UniqueIds(ledgers[i])
  }

  /** Everything shown by following the cursors, one page from each ledger in turn. */
  function Followed(ledgers: seq<seq<LedgerRow>>, user: UserId, cursor: Option<Key>, limit: nat): seq<LedgerRow>
    requires limit >= 1
    decreases |ledgers|
  {
    if ledgers == [] then []
    else
      var next := NextCursor(ledgers[0], user, cursor, limit);
      PageRows(ledgers[0], user, cursor, limit) +
      if next.None? then [] else Followed(ledgers[1..], user, next, limit)
  }

  /** No cursor was left to follow. */
  predicate Finished(ledgers: seq<seq<LedgerRow>>, user: UserId, cursor: Option<Key>, limit: nat)
    requires limit >= 1
    decreases |ledgers|
  {
    ledgers != [] &&
    var next := NextCursor(ledgers[0], user, cursor, limit);
    (next.None? || Finished(ledgers[1..], user, next, limit))
  }

  lemma GrowingTail(ledgers: seq<seq<LedgerRow>>)
    requires ledgers != [] && Growing(ledgers)
    ensures Growing(ledgers[1..]) && UniqueIds(ledgers[0])
    ensures |ledgers| > 1 ==> ledgers[0] <= ledgers[1..][0]
  {
    assert ledgers[0] <= ledgers[0];
    forall i, j | 0 <= i <= j < |ledgers[1..]|
      ensures ledgers[1..][i] <= ledgers[1..][j] && UniqueIds(ledgers[1..][i])
    {
      assert ledgers[i + 1] <= ledgers[j + 1];
    }
  }

  lemma DescendsAppend(a: seq<LedgerRow>, b: seq<LedgerRow>, cut: Key)
    requires Descends(a) && Descends(b) && a != [] && KeyOf(a[|a| - 1]) == cut
    requires forall x :: x in b ==> Less(KeyOf(x), cut)
    ensures Descends(a + b)
  {
    forall i, j | 0 <= i < j < |a + b|
      ensures Less(KeyOf((a + b)[j]), KeyOf((a + b)[i]))
    {
      if i < |a| <= j {
        assert (a + b)[j] in b;
        assert i == |a| - 1 || Less(KeyOf(a[|a| - 1]), KeyOf(a[i]));
      }
    }
  }

  /** Across all the pages the rows descend strictly, so none is shown twice. */
  lemma {:induction false} FollowedDescends(ledgers: seq<seq<LedgerRow>>, user: UserId, cursor: Option<Key>, limit: nat)
    requires limit >= 1 && Growing(ledgers)
    ensures Descends(Followed(ledgers, user, cursor, limit))
    ensures forall x :: x in Followed(ledgers, user, cursor, limit) ==> Wanted(x, user, cursor)
    decreases |ledgers|
  {
    if ledgers != [] {
      GrowingTail(ledgers);
      var shown, next := PageRows(ledgers[0], user, cursor, limit), NextCursor(ledgers[0], user, cursor, limit);
      PageDescends(ledgers[0], user, cursor, limit);
      if next.Some? {
        var rest := Followed(ledgers[1..], user, next, limit);
        FollowedDescends(ledgers[1..], user, next, limit);
        DescendsAppend(shown, rest, next.value);
        assert shown[limit - 1] in shown;
      } else {
        assert shown + [] == shown;
      }
    }
  }

  /** Following to the end shows every row that was there when the first page was read, whatever was appended since. */
  lemma {:induction false} NothingIsSkipped(ledgers: seq<seq<LedgerRow>>, user: UserId, cursor: Option<Key>, limit: nat,
        row: LedgerRow)
    requires limit >= 1 && Growing(ledgers) && Finished(ledgers, user, cursor, limit)
    requires row in ledgers[0] && Wanted(row, user, cursor)
    ensures row in Followed(ledgers, user, cursor, limit)
    decreases |ledgers|
  {
    GrowingTail(ledgers);
    PageCuts(ledgers[0], user, cursor, limit, row);
    var next := NextCursor(ledgers[0], user, cursor, limit);
    if row !in PageRows(ledgers[0], user, cursor, limit) {
      NothingIsSkipped(ledgers[1..], user, next, limit, row);
    }
  }

  /** Nothing is shown that was not in the ledger by the last page. */
  lemma {:induction false} NothingIsInvented(ledgers: seq<seq<LedgerRow>>, user: UserId, cursor: Option<Key>,
        limit: nat, row: LedgerRow)
    requires limit >= 1 && Growing(ledgers) && row in Followed(ledgers, user, cursor, limit)
    ensures row in ledgers[|ledgers| - 1] && row.user == user
    decreases |ledgers|
  {
    GrowingTail(ledgers);
    PageDescends(ledgers[0], user, cursor, limit);
    assert ledgers[0] <= ledgers[|ledgers| - 1];
    if row !in PageRows(ledgers[0], user, cursor, limit) {
      NothingIsInvented(ledgers[1..], user, NextCursor(ledgers[0], user, cursor, limit), limit, row);
    }
  }

  /** Full pages hold this many rows. */
  function Total(limit: nat, pages: nat): nat {
    if pages == 0 then 0 else limit + Total(limit, pages - 1)
  }

  lemma {:induction false} TotalIsProduct(limit: nat, pages: nat)
    ensures Total(limit, pages) == limit * pages
  {
    if pages > 0 {
      TotalIsProduct(limit, pages - 1);
      assert limit * pages == limit + limit * (pages - 1);
    }
  }

  lemma {:induction false} ShownPerPage(ledgers: seq<seq<LedgerRow>>, user: UserId, cursor: Option<Key>, limit: nat)
    requires limit >= 1 && Growing(ledgers) && !Finished(ledgers, user, cursor, limit)
    ensures |Followed(ledgers, user, cursor, limit)| == Total(limit, |ledgers|)
    decreases |ledgers|
  {
    if ledgers != [] {
      GrowingTail(ledgers);
      PageDescends(ledgers[0], user, cursor, limit);
      ShownPerPage(ledgers[1..], user, NextCursor(ledgers[0], user, cursor, limit), limit);
    }
  }

  lemma NoneTwice(shown: seq<LedgerRow>)
    requires Descends(shown)
    ensures Distinct(shown)
  {
    forall i, j | 0 <= i < j < |shown|
      ensures shown[i] != shown[j]
    {
      assert Less(KeyOf(shown[j]), KeyOf(shown[i]));
    }
  }

  lemma DistinctFits(shown: seq<LedgerRow>, rows: seq<LedgerRow>)
    requires Descends(shown) && forall x :: x in shown ==> x in rows
    ensures |shown| <= |rows|
  {
    NoneTwice(shown);
    DistinctByCount(shown);
    DistinctByCount(rows);
    assert Elements(shown) <= Elements(rows);
    SubsetCardinality(Elements(shown), Elements(rows));
  }

  /**
    Over a ledger that stays finite, following the cursors ends: every page but the last shows `limit`
    rows not shown before.
   */
  lemma FollowingEnds(ledgers: seq<seq<LedgerRow>>, user: UserId, limit: nat)
    requires limit >= 1 && Growing(ledgers) && ledgers != []
    requires limit * |ledgers| > |ledgers[|ledgers| - 1]|
    ensures Finished(ledgers, user, None, limit)
  {
    if !Finished(ledgers, user, None, limit) {
      ShownPerPage(ledgers, user, None, limit);
      TotalIsProduct(limit, |ledgers|);
      FollowedDescends(ledgers, user, None, limit);
      forall x | x in Followed(ledgers, user, None, limit)
        ensures x in ledgers[|ledgers| - 1]
      {
        NothingIsInvented(ledgers, user, None, limit, x);
      }
      DistinctFits(Followed(ledgers, user, None, limit), ledgers[|ledgers| - 1]);
    }
  }

  /** Put together: the user's rows of the first moment, each exactly once, newest first. */
  lemma EveryRowOnce(ledgers: seq<seq<LedgerRow>>, user: UserId, limit: nat, row: LedgerRow) returns (at: nat)
    requires limit >= 1 && Growing(ledgers) && Finished(ledgers, user, None, limit)
    requires row in ledgers[0] && row.user == user
    ensures var shown := Followed(ledgers, user, None, limit);
            && at < |shown| && shown[at] == row
            && (forall i :: 0 <= i < |shown| && shown[i] == row ==> i == at)
            && Descends(shown)
  {
    var shown := Followed(ledgers, user, None, limit);
    NothingIsSkipped(ledgers, user, None, limit, row);
    FollowedDescends(ledgers, user, None, limit);
    at :| 0 <= at < |shown| && shown[at] == row;
    NoneTwice(shown);
  }

  // ------------------------------------------------------- the coin ledger itself

  /** The ledger at given moments of a run of the store. */
  function Snapshots(catalog: Catalog, events: seq<Event>, at: seq<nat>): (r: seq<seq<LedgerRow>>)
    requires forall i :: 0 <= i < |at| ==> at[i] <= |events|
    ensures |r| == |at|
  {
    seq(|at|, i requires 0 <= i < |at| => Run(Initial(catalog), events[..at[i]]).ledger)
  }

  lemma RowIdsAreUnique(catalog: Catalog, events: seq<Event>)
    ensures UniqueIds(Run(Initial(catalog), events).ledger)
  {
    EveryRunReconciles(catalog, events);
  }

  lemma LaterSnapshotExtends(catalog: Catalog, events: seq<Event>, a: nat, b: nat)
    requires a <= b <= |events|
    ensures Run(Initial(catalog), events[..a]).ledger <= Run(Initial(catalog), events[..b]).ledger
  {
    assert events[..b] == events[..a] + events[a..b];
    RunAppend(Initial(catalog), events[..a], events[a..b]);
    LedgerOnlyGrows(Run(Initial(catalog), events[..a]), events[a..b]);
  }

  lemma SnapshotsGrow(catalog: Catalog, events: seq<Event>, at: seq<nat>)
    requires forall i :: 0 <= i < |at| ==> at[i] <= |events|
    requires forall i, j :: 0 <= i <= j < |at| ==> at[i] <= at[j]
    ensures Growing(Snapshots(catalog, events, at))
  {
    var ledgers := Snapshots(catalog, events, at);
    forall i, j | 0 <= i <= j < |ledgers|
      ensures ledgers[i] <= ledgers[j] && UniqueIds(ledgers[i])
    {
      RowIdsAreUnique(catalog, events[..at[i]]);
      LaterSnapshotExtends(catalog, events, at[i], at[j]);
    }
  }

  /**
    While any coin operations at all are committed between the pages, a reader who follows the
    cursors to the end sees each of their rows of the first moment exactly once, newest first.
   */
  lemma PagesShowEveryRowOnce(catalog: Catalog, events: seq<Event>, at: seq<nat>, user: UserId, limit: nat,
        row: LedgerRow) returns (shownAt: nat)
    requires limit >= 1 && at != [] && forall i :: 0 <= i < |at| ==> at[i] <= |events|
    requires forall i, j :: 0 <= i <= j < |at| ==> at[i] <= at[j]
    requires Finished(Snapshots(catalog, events, at), user, None, limit)
    requires row in Run(Initial(catalog), events[..at[0]]).ledger && row.user == user
    ensures var shown := Followed(Snapshots(catalog, events, at), user, None, limit);
            && shownAt < |shown| && shown[shownAt] == row
            && (forall i :: 0 <= i < |shown| && shown[i] == row ==> i == shownAt)
            && Descends(shown)
  {
    SnapshotsGrow(catalog, events, at);
    shownAt := EveryRowOnce(Snapshots(catalog, events, at), user, limit, row);
  }
}
