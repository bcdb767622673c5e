/** Refresh-token rows: single-use tokens, rotation families and what a replay does to one. */
module Sessions {
  import opened Prelude

  type Instant = int
  type Hash = nat
  type Family = nat

  datatype Row = Row(
    id: nat,
    user: nat,
    family: Family,
    expiresAt: Instant,
    revokedAt: Option<Instant>,
    replacedBy: Option<nat>)

  /** The table, keyed by its unique hash column, and the next identity value. */
  datatype Store = Store(rows: map<Hash, Row>, nextId: nat)

  datatype Error = InvalidRefreshToken | TokenReused | DuplicateHash

  // ------------------------------------------------------------- transactions

  function Created(s: Store, user: nat, family: Family, hash: Hash, expiresAt: Instant): (Store, Result<Row, Error>) {
    if hash in s.rows then (s, Err(DuplicateHash))
    else
      var row := Row(s.nextId, user, family, expiresAt, None, None);
      (Store(s.rows[hash := row], s.nextId + 1), Ok(row))
  }

  /** How the rotating transaction ends: only `Issued` commits anything. */
  datatype Outcome = Issued(row: Row) | Reused(family: Family) | Rejected(error: Error)

  function Consumed(s: Store, hash: Hash, nextHash: Hash, nextExpiry: Instant, now: Instant): (Store, Outcome) {
    if hash !in s.rows then (s, Rejected(InvalidRefreshToken))
    else
      var current := s.rows[hash];
      if current.revokedAt.Some? then (s, Reused(current.family))
      else if current.expiresAt <= now then (s, Rejected(InvalidRefreshToken))
      else if nextHash in s.rows then (s, Rejected(DuplicateHash))
      else
        var next := Row(s.nextId, current.user, current.family, nextExpiry, None, None);
        var spent := current.(revokedAt := Some(now), replacedBy := Some(next.id));
        (Store(s.rows[nextHash := next][hash := spent], s.nextId + 1), Issued(next))
  }

  function Ended(row: Row, now: Instant): Row {
    if row.revokedAt.None? then row.(revokedAt := Some(now)) else row
  }

  function FamilyRevoked(s: Store, family: Family, now: Instant): Store {
    s.(rows := map h | h in s.rows :: if s.rows[h].family == family then Ended(s.rows[h], now) else s.rows[h])
  }

  function TokenFamilyRevoked(s: Store, hash: Hash, now: Instant): Store {
    if hash in s.rows then FamilyRevoked(s, s.rows[hash].family, now) else s
  }

  function UserRevoked(s: Store, user: nat, now: Instant): Store {
    s.(rows := map h | h in s.rows :: if s.rows[h].user == user then Ended(s.rows[h], now) else s.rows[h])
  }

  function Ids(rows: map<Hash, Row>): set<nat> {
    set h | h in rows :: rows[h].id
  }

  function Kept(rows: map<Hash, Row>, before: Instant): map<Hash, Row> {
    map h | h in rows && rows[h].expiresAt >= before :: rows[h]
  }

  /** A deleted successor leaves a null behind. */
  function Unlinked(row: Row, ids: set<nat>): Row {
    if row.replacedBy.Some? && row.replacedBy.value !in ids then row.(replacedBy := None) else row
  }

  function ExpiredDeleted(s: Store, before: Instant): Store {
    var kept := Kept(s.rows, before);
    s.(rows := map h | h in kept :: Unlinked(kept[h], Ids(kept)))
  }

  // --------------------------------------------------------------------- runs

  /** Every transaction any caller may commit, in any order. A replay's revocation is one of its own. */
  datatype Op =
    | Create(user: nat, family: Family, hash: Hash, expiresAt: Instant)
    | Consume(hash: Hash, nextHash: Hash, nextExpiry: Instant, now: Instant)
    | RevokeFamily(family: Family, now: Instant)
    | RevokeByToken(hash: Hash, now: Instant)
    | RevokeUser(user: nat, now: Instant)
    | DeleteExpired(before: Instant)

  function Step(s: Store, op: Op): Store {
    match op
    case Create(user, family, hash, expiresAt) => Created(s, user, family, hash, expiresAt).0
    case Consume(hash, nextHash, nextExpiry, now) => Consumed(s, hash, nextHash, nextExpiry, now).0
    case RevokeFamily(family, now) => FamilyRevoked(s, family, now)
    case RevokeByToken(hash, now) => TokenFamilyRevoked(s, hash, now)
    case RevokeUser(user, now) => UserRevoked(s, user, now)
    case DeleteExpired(before) => ExpiredDeleted(s, before)
  }

  /** The families opened so far: random identifiers, never drawn twice. */
  datatype World = World(store: Store, families: set<Family>)

  const EMPTY := World(Store(map[], 0), {})

  function Advance(w: World, op: Op): World {
    World(Step(w.store, op), if op.Create? then w.families + {op.family} else w.families)
  }

  predicate Fresh(w: World, op: Op) {
    op.Create? ==> op.family !in w.families
  }

  predicate FreshRun(w: World, ops: seq<Op>)
    decreases |ops|
  {
    ops == [] || (Fresh(w, ops[0]) && FreshRun(Advance(w, ops[0]), ops[1..]))
  }

  function Run(w: World, ops: seq<Op>): World
    decreases |ops|
  {
    if ops == [] then w else Run(Advance(w, ops[0]), ops[1..])
  }

  // ---------------------------------------------------------------- invariant

  predicate RowOk(row: Row, nextId: nat, families: set<Family>) {
    && row.id < nextId && row.family in families
    && (row.replacedBy.Some? ==> row.revokedAt.Some? && row.id < row.replacedBy.value < nextId)
  }

  /** Of two rows of a family the older is revoked, and its link does not lead past the younger. */
  predicate PairOk(a: Row, b: Row) {
    && (a.family == b.family && a.id < b.id ==>
          a.revokedAt.Some? && (a.replacedBy.Some? ==> a.replacedBy.value <= b.id))
    && (a.replacedBy == Some(b.id) ==> a.family == b.family)
  }

  ghost predicate RowsOk(rows: map<Hash, Row>, nextId: nat, families: set<Family>) {
    forall h :: h in rows ==> RowOk(rows[h], nextId, families)
  }

  ghost predicate PairsOk(rows: map<Hash, Row>) {
    forall g, h :: g in rows && h in rows ==> PairOk(rows[g], rows[h])
  }

  ghost predicate UniqueIds(rows: map<Hash, Row>) {
    forall g, h :: g in rows && h in rows && g != h ==> rows[g].id != rows[h].id
  }

  ghost predicate LinksPresent(rows: map<Hash, Row>) {
    forall h :: h in rows && rows[h].replacedBy.Some? ==> rows[h].replacedBy.value in Ids(rows)
  }

  ghost predicate Good(rows: map<Hash, Row>, nextId: nat, families: set<Family>) {
    RowsOk(rows, nextId, families) && PairsOk(rows) && UniqueIds(rows) && LinksPresent(rows)
  }

  ghost predicate Inv(w: World) {
    Good(w.store.rows, w.store.nextId, w.families)
  }

  // ----------------------------------------------------- every step keeps it

  predicate MaybeEnded(a: Row, a': Row) {
    a' == a || (a.revokedAt.None? && a'.revokedAt.Some? && a' == a.(revokedAt := a'.revokedAt))
  }

  predicate OnlyEnded(rows: map<Hash, Row>, rows': map<Hash, Row>) {
    rows'.Keys == rows.Keys && forall h :: h in rows' ==> MaybeEnded(rows[h], rows'[h])
  }

  predicate Revoking(op: Op) {
    op.RevokeFamily? || op.RevokeByToken? || op.RevokeUser?
  }

  lemma RevokingOnlyEnds(s: Store, op: Op)
    requires Revoking(op)
    ensures OnlyEnded(s.rows, Step(s, op).rows) && Step(s, op).nextId == s.nextId
  {
  }

  lemma EndingKeepsPairs(rows: map<Hash, Row>, rows': map<Hash, Row>)
    requires PairsOk(rows) && OnlyEnded(rows, rows')
    ensures PairsOk(rows')
  {
    forall g, h | g in rows' && h in rows'
      ensures PairOk(rows'[g], rows'[h])
    {
      assert PairOk(rows[g], rows[h]) && MaybeEnded(rows[g], rows'[g]) && MaybeEnded(rows[h], rows'[h]);
    }
  }

  lemma EndingKeepsRows(rows: map<Hash, Row>, rows': map<Hash, Row>, nextId: nat, families: set<Family>)
    requires RowsOk(rows, nextId, families) && UniqueIds(rows) && OnlyEnded(rows, rows')
    ensures RowsOk(rows', nextId, families) && UniqueIds(rows')
  {
    forall h | h in rows'
      ensures RowOk(rows'[h], nextId, families) && rows'[h].id == rows[h].id
    {
      assert RowOk(rows[h], nextId, families) && MaybeEnded(rows[h], rows'[h]);
    }
  }

  lemma EndingKeepsLinks(rows: map<Hash, Row>, rows': map<Hash, Row>)
    requires LinksPresent(rows) && OnlyEnded(rows, rows')
    ensures LinksPresent(rows')
  {
    assert forall h :: h in rows' ==> MaybeEnded(rows[h], rows'[h]);
    SameIds(rows, rows');
  }

  lemma EndingKeepsGood(rows: map<Hash, Row>, rows': map<Hash, Row>, nextId: nat, families: set<Family>)
    requires Good(rows, nextId, families) && OnlyEnded(rows, rows')
    ensures Good(rows', nextId, families)
  {
    EndingKeepsRows(rows, rows', nextId, families);
    EndingKeepsLinks(rows, rows');
    EndingKeepsPairs(rows, rows');
  }

  lemma SameIds(rows: map<Hash, Row>, rows': map<Hash, Row>)
    requires rows'.Keys == rows.Keys && forall h :: h in rows ==> rows'[h].id == rows[h].id
    ensures Ids(rows') == Ids(rows)
  {
    forall id
      ensures id in Ids(rows') <==> id in Ids(rows)
    {
      if id in Ids(rows) {
        var h :| h in rows && rows[h].id == id;
        assert h in rows' && rows'[h].id == id;
      }
    }
  }

  lemma IdsAfter(rows: map<Hash, Row>, hash: Hash, row: Row)
    ensures hash !in rows ==> Ids(rows[hash := row]) == Ids(rows) + {row.id}
    ensures hash in rows && rows[hash].id == row.id ==> Ids(rows[hash := row]) == Ids(rows)
  {
    var rows' := rows[hash := row];
    if hash !in rows {
      forall id | id in Ids(rows) + {row.id}
        ensures id in Ids(rows')
      {
        if id in Ids(rows) {
          var h :| h in rows && rows[h].id == id;
          assert h in rows' && rows'[h].id == id;
        } else {
          assert rows'[hash].id == id;
        }
      }
    } else if rows[hash].id == row.id {
      SameIds(rows, rows');
    }
  }

  lemma CreateKeepsGood(rows: map<Hash, Row>, nextId: nat, families: set<Family>, hash: Hash, row: Row)
    requires Good(rows, nextId, families) && hash !in rows
    requires row.id == nextId && row.family !in families && row.replacedBy.None?
    ensures Good(rows[hash := row], nextId + 1, families + {row.family})
  {
    var rows' := rows[hash := row];
    forall h | h in rows
      ensures PairOk(rows[h], row) && PairOk(row, rows[h])
    {
      assert RowOk(rows[h], nextId, families);
    }
    assert PairsOk(rows');
    IdsAfter(rows, hash, row);
  }

  /** What rotation writes: the newest row's successor, and the newest row spent. */
  predicate Succeeds(current: Row, spent: Row, next: Row, nextId: nat) {
    && current.revokedAt.None? && spent.revokedAt.Some? && spent.replacedBy == Some(nextId)
    && spent == current.(revokedAt := spent.revokedAt, replacedBy := spent.replacedBy)
    && next.id == nextId && next.family == current.family && next.revokedAt.None? && next.replacedBy.None?
  }

  /** Both fit with every other row of the table. */
  lemma SuccessorFits(current: Row, spent: Row, next: Row, other: Row, nextId: nat, families: set<Family>)
    requires Succeeds(current, spent, next, nextId) && other.id != current.id
    requires RowOk(current, nextId, families) && RowOk(other, nextId, families)
    requires PairOk(current, other) && PairOk(other, current)
    ensures PairOk(other, next) && PairOk(next, other) && PairOk(other, spent) && PairOk(spent, other)
    ensures PairOk(spent, next) && PairOk(next, spent)
  {
  }

  lemma ConsumeKeepsPairs(rows: map<Hash, Row>, nextId: nat, families: set<Family>, hash: Hash, nextHash: Hash,
        spent: Row, next: Row)
    requires RowsOk(rows, nextId, families) && PairsOk(rows) && UniqueIds(rows) && hash in rows && nextHash !in rows
    requires Succeeds(rows[hash], spent, next, nextId)
    ensures PairsOk(rows[nextHash := next][hash := spent])
  {
    var rows' := rows[nextHash := next][hash := spent];
    forall g, h | g in rows' && h in rows'
      ensures PairOk(rows'[g], rows'[h])
    {
      assert RowOk(rows[hash], nextId, families);
      if h in rows && h != hash {
        assert RowOk(rows[h], nextId, families) && PairOk(rows[hash], rows[h]) && PairOk(rows[h], rows[hash]);
        SuccessorFits(rows[hash], spent, next, rows[h], nextId, families);
      }
      if g in rows && g != hash {
        assert RowOk(rows[g], nextId, families) && PairOk(rows[hash], rows[g]) && PairOk(rows[g], rows[hash]);
        SuccessorFits(rows[hash], spent, next, rows[g], nextId, families);
      }
    }
  }

  lemma ConsumeKeepsLinks(rows: map<Hash, Row>, hash: Hash, nextHash: Hash, spent: Row, next: Row)
    requires LinksPresent(rows) && hash in rows && nextHash !in rows && spent.id == rows[hash].id
    requires next.replacedBy.None? && spent.replacedBy == Some(next.id)
    ensures LinksPresent(rows[nextHash := next][hash := spent])
  {
    IdsAfter(rows, nextHash, next);
    IdsAfter(rows[nextHash := next], hash, spent);
  }

  lemma ConsumeKeepsGood(rows: map<Hash, Row>, nextId: nat, families: set<Family>, hash: Hash, nextHash: Hash,
        spent: Row, next: Row)
    requires Good(rows, nextId, families) && hash in rows && nextHash !in rows
    requires Succeeds(rows[hash], spent, next, nextId)
    ensures Good(rows[nextHash := next][hash := spent], nextId + 1, families)
  {
    assert RowOk(rows[hash], nextId, families);
    ConsumeKeepsPairs(rows, nextId, families, hash, nextHash, spent, next);
    ConsumeKeepsLinks(rows, hash, nextHash, spent, next);
  }

  lemma DeleteKeepsRows(rows: map<Hash, Row>, rows': map<Hash, Row>, nextId: nat, families: set<Family>)
    requires RowsOk(rows, nextId, families) && PairsOk(rows) && UniqueIds(rows)
    requires rows'.Keys <= rows.Keys
    requires forall h :: h in rows' ==> rows'[h] == rows[h] || rows'[h] == rows[h].(replacedBy := None)
    ensures RowsOk(rows', nextId, families) && PairsOk(rows') && UniqueIds(rows')
  {
    assert forall h :: h in rows' ==> RowOk(rows[h], nextId, families);
    forall g, h | g in rows' && h in rows'
      ensures PairOk(rows'[g], rows'[h])
    {
      assert PairOk(rows[g], rows[h]);
    }
  }

  lemma DeleteKeepsLinks(kept: map<Hash, Row>, rows': map<Hash, Row>)
    requires rows'.Keys == kept.Keys && forall h :: h in kept ==> rows'[h] == Unlinked(kept[h], Ids(kept))
    ensures LinksPresent(rows')
  {
    SameIds(kept, rows');
  }

  lemma DeleteKeepsGood(rows: map<Hash, Row>, nextId: nat, families: set<Family>, before: Instant)
    requires Good(rows, nextId, families)
    ensures Good(ExpiredDeleted(Store(rows, nextId), before).rows, nextId, families)
  {
    var kept, rows' := Kept(rows, before), ExpiredDeleted(Store(rows, nextId), before).rows;
    DeleteKeepsLinks(kept, rows');
    DeleteKeepsRows(rows, rows', nextId, families);
  }

  lemma StepKeepsInv(w: World, op: Op)
    requires Inv(w) && Fresh(w, op)
    ensures Inv(Advance(w, op))
  {
    match op {
      case Create(user, family, hash, expiresAt) =>
        if hash !in w.store.rows {
          CreateKeepsGood(w.store.rows, w.store.nextId, w.families, hash,
            Row(w.store.nextId, user, family, expiresAt, None, None));
        }
      case Consume(hash, nextHash, nextExpiry, now) =>
        var after := Consumed(w.store, hash, nextHash, nextExpiry, now);
        if after.1.Issued? {
          assert RowOk(w.store.rows[hash], w.store.nextId, w.families);
          ConsumeKeepsGood(w.store.rows, w.store.nextId, w.families, hash, nextHash, after.0.rows[hash], after.1.row);
        }
      case DeleteExpired(before) => DeleteKeepsGood(w.store.rows, w.store.nextId, w.families, before);
      case _ =>
        RevokingOnlyEnds(w.store, op);
        EndingKeepsGood(w.store.rows, Step(w.store, op).rows, w.store.nextId, w.families);
    }
  }

  lemma {:induction false} RunKeepsInv(w: World, ops: seq<Op>)
    requires Inv(w) && FreshRun(w, ops)
    ensures Inv(Run(w, ops))
    decreases |ops|
  {
    if ops != [] {
      StepKeepsInv(w, ops[0]);
      RunKeepsInv(Advance(w, ops[0]), ops[1..]);
    }
  }

  /** After any run: a family has at most one unrevoked token, its newest. */
  lemma OneOpenTokenPerFamily(ops: seq<Op>, g: Hash, h: Hash)
    requires FreshRun(EMPTY, ops)
    requires var rows := Run(EMPTY, ops).store.rows;
             g in rows && h in rows && rows[g].family == rows[h].family && rows[g].revokedAt.None?
    ensures var rows := Run(EMPTY, ops).store.rows;
            h == g || (rows[h].revokedAt.Some? && rows[h].id < rows[g].id)
  {
    RunKeepsInv(EMPTY, ops);
    var rows := Run(EMPTY, ops).store.rows;
    assert PairOk(rows[g], rows[h]) && PairOk(rows[h], rows[g]);
  }

  /** `h` holds the row that follows `g`'s in its family. */
  ghost predicate IsNext(rows: map<Hash, Row>, g: Hash, h: Hash)
    requires g in rows && h in rows
  {
    && rows[g].family == rows[h].family && rows[g].id < rows[h].id
    && forall k :: k in rows && rows[k].family == rows[g].family ==> !(rows[g].id < rows[k].id < rows[h].id)
  }

  /** After any run: a link leads to the next row of the same family, and no two rows share one. */
  lemma LinksFormChains(ops: seq<Op>, g: Hash) returns (h: Hash)
    requires FreshRun(EMPTY, ops)
    requires var rows := Run(EMPTY, ops).store.rows; g in rows && rows[g].replacedBy.Some?
    ensures var rows := Run(EMPTY, ops).store.rows;
            && h in rows && rows[h].id == rows[g].replacedBy.value && IsNext(rows, g, h)
            && forall k :: k in rows && rows[k].replacedBy == rows[g].replacedBy ==> k == g
  {
    RunKeepsInv(EMPTY, ops);
    var rows := Run(EMPTY, ops).store.rows;
    h :| h in rows && rows[h].id == rows[g].replacedBy.value;
    assert PairOk(rows[g], rows[h]);
    forall k | k in rows && rows[k].family == rows[g].family
      ensures !(rows[g].id < rows[k].id < rows[h].id)
    {
      assert PairOk(rows[g], rows[k]);
    }
    forall k | k in rows && rows[k].replacedBy == rows[g].replacedBy
      ensures k == g
    {
      assert PairOk(rows[k], rows[h]) && PairOk(rows[k], rows[g]) && PairOk(rows[g], rows[k]);
    }
  }

  /** Without deletions no link is missing: every row but a family's newest leads on. */
  ghost predicate Complete(rows: map<Hash, Row>) {
    forall g, h :: g in rows && h in rows && rows[g].family == rows[h].family && rows[g].id < rows[h].id ==>
      rows[g].replacedBy.Some?
  }

  lemma CreateKeepsComplete(rows: map<Hash, Row>, nextId: nat, families: set<Family>, hash: Hash, row: Row)
    requires RowsOk(rows, nextId, families) && Complete(rows) && hash !in rows && row.family !in families
    ensures Complete(rows[hash := row])
  {
    assert forall h :: h in rows ==> RowOk(rows[h], nextId, families);
  }

  lemma IdsAreBelow(rows: map<Hash, Row>, nextId: nat, families: set<Family>)
    requires RowsOk(rows, nextId, families)
    ensures forall h :: h in rows ==> rows[h].id < nextId
  {
    assert forall h :: h in rows ==> RowOk(rows[h], nextId, families);
  }

  lemma CompleteWithSuccessor(rows: map<Hash, Row>, nextId: nat, hash: Hash, nextHash: Hash, spent: Row, next: Row)
    requires Complete(rows) && hash in rows && nextHash !in rows && Succeeds(rows[hash], spent, next, nextId)
    requires forall h :: h in rows ==> rows[h].id < nextId
    requires forall g :: g in rows && g != hash && rows[g].family == rows[hash].family ==> rows[g].id < rows[hash].id
    ensures Complete(rows[nextHash := next][hash := spent])
  {
  }

  lemma ConsumeKeepsComplete(rows: map<Hash, Row>, nextId: nat, families: set<Family>, hash: Hash, nextHash: Hash,
        spent: Row, next: Row)
    requires Good(rows, nextId, families) && Complete(rows) && hash in rows && nextHash !in rows
    requires Succeeds(rows[hash], spent, next, nextId)
    ensures Complete(rows[nextHash := next][hash := spent])
  {
    IdsAreBelow(rows, nextId, families);
    forall g | g in rows && g != hash && rows[g].family == rows[hash].family
      ensures rows[g].id < rows[hash].id
    {
      assert PairOk(rows[hash], rows[g]) && rows[g].id != rows[hash].id;
    }
    CompleteWithSuccessor(rows, nextId, hash, nextHash, spent, next);
  }

  lemma EndingKeepsComplete(rows: map<Hash, Row>, rows': map<Hash, Row>)
    requires Complete(rows) && OnlyEnded(rows, rows')
    ensures Complete(rows')
  {
    assert forall h :: h in rows' ==> MaybeEnded(rows[h], rows'[h]);
  }

  lemma CreatedKeepsComplete(w: World, op: Op)
    requires Inv(w) && Fresh(w, op) && op.Create? && Complete(w.store.rows)
    ensures Complete(Advance(w, op).store.rows)
  {
    if op.hash !in w.store.rows {
      var row := Row(w.store.nextId, op.user, op.family, op.expiresAt, None, None);
      CreateKeepsComplete(w.store.rows, w.store.nextId, w.families, op.hash, row);
    }
  }

  lemma ConsumedKeepsComplete(w: World, op: Op)
    requires Inv(w) && op.Consume? && Complete(w.store.rows)
    ensures Complete(Advance(w, op).store.rows)
  {
    var (s, outcome) := Consumed(w.store, op.hash, op.nextHash, op.nextExpiry, op.now);
    if outcome.Issued? {
      ConsumeKeepsComplete(w.store.rows, w.store.nextId, w.families, op.hash, op.nextHash, s.rows[op.hash],
        outcome.row);
    }
  }

  lemma StepKeepsComplete(w: World, op: Op)
    requires Inv(w) && Fresh(w, op) && !op.DeleteExpired? && Complete(w.store.rows)
    ensures Complete(Advance(w, op).store.rows)
  {
    if op.Create? {
      CreatedKeepsComplete(w, op);
    } else if op.Consume? {
      ConsumedKeepsComplete(w, op);
    } else {
      RevokingOnlyEnds(w.store, op);
      EndingKeepsComplete(w.store.rows, Step(w.store, op).rows);
    }
  }

  /** While nothing is deleted, each family is one chain from its first row to its newest. */
  lemma {:induction false} ChainsAreWhole(w: World, ops: seq<Op>)
    requires Inv(w) && FreshRun(w, ops) && Complete(w.store.rows)
    requires forall i :: 0 <= i < |ops| ==> !ops[i].DeleteExpired?
    ensures Complete(Run(w, ops).store.rows)
    decreases |ops|
  {
    if ops != [] {
      StepKeepsInv(w, ops[0]);
      StepKeepsComplete(w, ops[0]);
      ChainsAreWhole(Advance(w, ops[0]), ops[1..]);
    }
  }

  // -------------------------------------------------------------- dead families

  /** The family was opened and has no unrevoked row. */
  ghost predicate Dead(w: World, family: Family) {
    family in w.families && forall h :: h in w.store.rows && w.store.rows[h].family == family ==>
      w.store.rows[h].revokedAt.Some?
  }

  lemma StepKeepsDead(w: World, op: Op, family: Family)
    requires Dead(w, family) && Fresh(w, op)
    ensures Dead(Advance(w, op), family)
  {
  }

  lemma {:induction false} DeadForever(w: World, ops: seq<Op>, family: Family)
    requires Dead(w, family) && FreshRun(w, ops)
    ensures Dead(Run(w, ops), family)
    decreases |ops|
  {
    if ops != [] {
      StepKeepsDead(w, ops[0], family);
      DeadForever(Advance(w, ops[0]), ops[1..], family);
    }
  }

  lemma {:induction false} RunAppend(w: World, ops: seq<Op>, more: seq<Op>)
    ensures Run(w, ops + more) == Run(Run(w, ops), more)
    ensures FreshRun(w, ops + more) <==> FreshRun(w, ops) && FreshRun(Run(w, ops), more)
    decreases |ops|
  {
    if ops == [] {
      assert ops + more == more;
    } else {
      assert (ops + more)[1..] == ops[1..] + more;
      RunAppend(Advance(w, ops[0]), ops[1..], more);
    }
  }

  lemma {:induction false} OpenedGrows(w: World, ops: seq<Op>)
    ensures w.families <= Run(w, ops).families
    decreases |ops|
  {
    if ops != [] {
      OpenedGrows(Advance(w, ops[0]), ops[1..]);
    }
  }

  /**
    A replay ends its family for good. Once a revoked token has been presented and, any number of
    other transactions later, the family revocation has committed, no run ever again leaves an
    unrevoked token in that family, so no token of it is ever rotated again.
   */
  lemma ReplayKillsTheFamily(before: seq<Op>, replay: Op, meanwhile: seq<Op>, now: Instant, later: seq<Op>, again: Op)
    requires replay.Consume? && again.Consume?
    requires var s := Run(EMPTY, before).store;
             Consumed(s, replay.hash, replay.nextHash, replay.nextExpiry, replay.now).1.Reused?
    requires var family := Run(EMPTY, before).store.rows[replay.hash].family;
             FreshRun(EMPTY, before + [replay] + meanwhile + [RevokeFamily(family, now)] + later)
    ensures var family := Run(EMPTY, before).store.rows[replay.hash].family;
            var w := Run(EMPTY, before + [replay] + meanwhile + [RevokeFamily(family, now)] + later);
            && Dead(w, family)
            && (Consumed(w.store, again.hash, again.nextHash, again.nextExpiry, again.now).1.Issued?
                ==> w.store.rows[again.hash].family != family)
  {
    var start := Run(EMPTY, before);
    var family := start.store.rows[replay.hash].family;
    var prefix := before + [replay] + meanwhile;
    var revoke := RevokeFamily(family, now);
    RunAppend(EMPTY, prefix + [revoke], later);
    RunAppend(EMPTY, prefix, [revoke]);
    RunAppend(EMPTY, before + [replay], meanwhile);
    RunAppend(EMPTY, before, [replay]);
    RunKeepsInv(EMPTY, before);
    OpenedGrows(start, [replay] + meanwhile);
    RunAppend(start, [replay], meanwhile);
    RevocationKills(Run(EMPTY, prefix), family, now);
    DeadForever(Run(EMPTY, prefix + [revoke]), later, family);
  }

  lemma RevocationKills(w: World, family: Family, now: Instant)
    requires family in w.families
    ensures Run(w, [RevokeFamily(family, now)]) == Advance(w, RevokeFamily(family, now))
    ensures Dead(Run(w, [RevokeFamily(family, now)]), family)
  {
    assert [RevokeFamily(family, now)][1..] == [];
  }

  /** Signing out with a token, spent or not, ends its family for good. */
  lemma LogoutEndsTheFamily(before: seq<Op>, hash: Hash, now: Instant, later: seq<Op>)
    requires FreshRun(EMPTY, before + [RevokeByToken(hash, now)] + later)
    requires hash in Run(EMPTY, before).store.rows
    ensures Dead(Run(EMPTY, before + [RevokeByToken(hash, now)] + later), Run(EMPTY, before).store.rows[hash].family)
  {
    var w, logout := Run(EMPTY, before), RevokeByToken(hash, now);
    RunAppend(EMPTY, before + [logout], later);
    RunAppend(EMPTY, before, [logout]);
    RunKeepsInv(EMPTY, before);
    assert RowOk(w.store.rows[hash], w.store.nextId, w.families);
    assert [logout][1..] == [];
    assert Dead(Advance(w, logout), w.store.rows[hash].family);
    DeadForever(Advance(w, logout), later, w.store.rows[hash].family);
  }

  ghost predicate SignedOut(s: Store, user: nat) {
    forall h :: h in s.rows && s.rows[h].user == user ==> s.rows[h].revokedAt.Some?
  }

  lemma {:induction false} SignedOutUntilSignIn(w: World, ops: seq<Op>, user: nat)
    requires SignedOut(w.store, user)
    requires forall op :: op in ops && op.Create? ==> op.user != user
    ensures SignedOut(Run(w, ops).store, user)
    decreases |ops|
  {
    if ops != [] {
      assert ops[0] in ops;
      SignedOutUntilSignIn(Advance(w, ops[0]), ops[1..], user);
    }
  }

  /**
    After a user's sessions are revoked, and until that user signs in again, no run of other
    transactions leaves a live token of the user or exchanges one.
   */
  lemma SignOutEverywhere(w: World, user: nat, now: Instant, later: seq<Op>, again: Op)
    requires again.Consume? && forall op :: op in later && op.Create? ==> op.user != user
    ensures var s := Run(Advance(w, RevokeUser(user, now)), later).store;
            && SignedOut(s, user)
            && (Consumed(s, again.hash, again.nextHash, again.nextExpiry, again.now).1.Issued?
                ==> s.rows[again.hash].user != user)
  {
    SignedOutUntilSignIn(Advance(w, RevokeUser(user, now)), later, user);
  }

  // ---------------------------------------------------------------- single use

  ghost predicate Spent(s: Store, hash: Hash) {
    hash in s.rows ==> s.rows[hash].revokedAt.Some?
  }

  /** The hash is random: nothing inserts it a second time. */
  predicate Inserts(op: Op, hash: Hash) {
    (op.Create? && op.hash == hash) || (op.Consume? && op.nextHash == hash)
  }

  lemma {:induction false} SpentForever(w: World, ops: seq<Op>, hash: Hash)
    requires Spent(w.store, hash) && forall i :: 0 <= i < |ops| ==> !Inserts(ops[i], hash)
    ensures Spent(Run(w, ops).store, hash)
    decreases |ops|
  {
    if ops != [] {
      assert !Inserts(ops[0], hash);
      SpentForever(Advance(w, ops[0]), ops[1..], hash);
    }
  }

  /** A token is exchanged at most once: whatever runs after the first exchange, the second is refused. */
  lemma ExchangedAtMostOnce(w: World, first: Op, ops: seq<Op>, second: Op)
    requires first.Consume? && second.Consume? && second.hash == first.hash
    requires Consumed(w.store, first.hash, first.nextHash, first.nextExpiry, first.now).1.Issued?
    requires forall i :: 0 <= i < |ops| ==> !Inserts(ops[i], first.hash)
    ensures var s := Run(Advance(w, first), ops).store;
            var outcome := Consumed(s, second.hash, second.nextHash, second.nextExpiry, second.now).1;
            if second.hash in s.rows then outcome == Reused(s.rows[second.hash].family)
              else outcome == Rejected(InvalidRefreshToken)
  {
    SpentForever(Advance(w, first), ops, first.hash);
  }

  // -------------------------------------------------------------------- store

  class SessionStore {
    var rows: map<Hash, Row>
    var nextId: nat

    function View(): Store
      reads this
    {
      Store(rows, nextId)
    }

    constructor ()
      ensures View() == EMPTY.store
    {
      rows, nextId := map[], 0;
    }

    method Create(user: nat, family: Family, hash: Hash, expiresAt: Instant) returns (r: Result<Row, Error>)
      modifies this
      ensures (View(), r) == Created(old(View()), user, family, hash, expiresAt)
      ensures forall h :: h in old(rows) ==> h in rows && rows[h] == old(rows)[h]
      ensures forall h :: h in rows && h !in old(rows) ==> h == hash && r == Ok(rows[h]) && rows[h].revokedAt.None?
    {
      if hash in rows {
        return Err(DuplicateHash);
      }
      var row := Row(nextId, user, family, expiresAt, None, None);
      rows, nextId := rows[hash := row], nextId + 1;
      return Ok(row);
    }

    /** The transaction inside `Rotate`. */
    method Exchange(hash: Hash, nextHash: Hash, nextExpiry: Instant, now: Instant) returns (outcome: Outcome)
      modifies this
      ensures (View(), outcome) == Consumed(old(View()), hash, nextHash, nextExpiry, now)
      ensures outcome.Issued? <==>
              && hash in old(rows) && old(rows)[hash].revokedAt.None? && now < old(rows)[hash].expiresAt
              && nextHash !in old(rows)
    {
      if hash !in rows {
        return Rejected(InvalidRefreshToken);
      }
      var current := rows[hash];
      if current.revokedAt.Some? {
        return Reused(current.family);
      }
      if current.expiresAt <= now {
        return Rejected(InvalidRefreshToken);
      }
      if nextHash in rows {
        return Rejected(DuplicateHash);
      }
      var created := Row(nextId, current.user, current.family, nextExpiry, None, None);
      rows, nextId := rows[nextHash := created], nextId + 1;
      rows := rows[hash := current.(revokedAt := Some(now), replacedBy := Some(created.id))];
      return Issued(created);
    }

    /** Consumes a token and issues its successor; a replay revokes the family in a second transaction. */
    method Rotate(hash: Hash, nextHash: Hash, nextExpiry: Instant, now: Instant) returns (r: Result<Row, Error>)
      modifies this
      ensures var (s, outcome) := Consumed(old(View()), hash, nextHash, nextExpiry, now);
              match outcome
              case Issued(row) => View() == s && r == Ok(row)
              case Reused(family) => View() == FamilyRevoked(old(View()), family, now) && r == Err(TokenReused)
              case Rejected(error) => View() == old(View()) && r == Err(error)
      ensures r.Ok? <==>
              && hash in old(rows) && old(rows)[hash].revokedAt.None? && now < old(rows)[hash].expiresAt
              && nextHash !in old(rows)
    {
      var outcome := Exchange(hash, nextHash, nextExpiry, now);
      match outcome {
        case Issued(row) => return Ok(row);
        case Reused(family) =>
          RevokeFamily(family, now);
          return Err(TokenReused);
        case Rejected(error) => return Err(error);
      }
    }

    method RevokeFamily(family: Family, now: Instant)
      modifies this
      ensures View() == FamilyRevoked(old(View()), family, now)
    {
      rows := map h | h in rows :: if rows[h].family == family then Ended(rows[h], now) else rows[h];
    }

    method RevokeFamilyByToken(hash: Hash, now: Instant)
      modifies this
      ensures View() == TokenFamilyRevoked(old(View()), hash, now)
      ensures OnlyEnded(old(rows), rows) && nextId == old(nextId)
      ensures hash in old(rows) ==> forall h :: h in rows ==>
                if rows[h].family == rows[hash].family then rows[h].revokedAt.Some? else rows[h] == old(rows)[h]
      ensures hash !in old(rows) ==> rows == old(rows)
    {
      if hash in rows {
        RevokeFamily(rows[hash].family, now);
      }
    }

    method RevokeAllForUser(user: nat, now: Instant)
      modifies this
      ensures View() == UserRevoked(old(View()), user, now)
      ensures OnlyEnded(old(rows), rows) && nextId == old(nextId)
      ensures forall h :: h in rows ==>
                if rows[h].user == user then rows[h].revokedAt.Some? else rows[h] == old(rows)[h]
    {
      rows := map h | h in rows :: if rows[h].user == user then Ended(rows[h], now) else rows[h];
    }

    /** Any one transaction of a run. */
    method Commit(op: Op)
      modifies this
      ensures View() == Step(old(View()), op)
    {
      match op {
        case Create(user, family, hash, expiresAt) =>
          var created := Create(user, family, hash, expiresAt);
        case Consume(hash, nextHash, nextExpiry, now) =>
          var outcome := Exchange(hash, nextHash, nextExpiry, now);
        case RevokeFamily(family, now) => RevokeFamily(family, now);
        case RevokeByToken(hash, now) => RevokeFamilyByToken(hash, now);
        case RevokeUser(user, now) => RevokeAllForUser(user, now);
        case DeleteExpired(before) =>
          var deleted := DeleteExpired(before);
      }
    }

    method DeleteExpired(before: Instant) returns (deleted: nat)
      modifies this
      ensures View() == ExpiredDeleted(old(View()), before)
      ensures deleted == |set h | h in old(rows) && old(rows)[h].expiresAt < before|
    {
      var kept := map h | h in rows && !(rows[h].expiresAt < before) :: rows[h];
      deleted := |set h | h in rows && rows[h].expiresAt < before|;
      var ids := set h | h in kept :: kept[h].id;
      rows := map h | h in kept :: Unlinked(kept[h], ids);
    }
  }
}
