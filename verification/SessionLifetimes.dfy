/** What one presentation of a refresh token does, row by row, and that an expired session is over for good. */
module SessionLifetimes {
  import opened Prelude
  import opened Sessions

  // ------------------------------------------------------------ row by row

  /** The token can be exchanged now: stored, not revoked, not yet expired. */
  predicate Usable(rows: map<Hash, Row>, hash: Hash, now: Instant) {
    hash in rows && rows[hash].revokedAt == None && now < rows[hash].expiresAt
  }

  /** All other rows are as they were. */
  ghost predicate SameBeside(rows: map<Hash, Row>, rows': map<Hash, Row>, changed: set<Hash>) {
    && rows'.Keys == rows.Keys + changed
    && forall h :: h in rows && h !in changed ==> rows'[h] == rows[h]
  }

  /** What a presentation is answered, and what it changes. */
  lemma ExchangedIff(s: Store, hash: Hash, nextHash: Hash, nextExpiry: Instant, now: Instant)
    ensures var (s', outcome) := Consumed(s, hash, nextHash, nextExpiry, now);
            && (outcome.Issued? <==> Usable(s.rows, hash, now) && nextHash !in s.rows)
            && (outcome.Issued? ==>
                  && outcome.row == Row(s.nextId, s.rows[hash].user, s.rows[hash].family, nextExpiry, None, None)
                  && SameBeside(s.rows, s'.rows, {hash, nextHash}) && s'.nextId == s.nextId + 1
                  && s'.rows[nextHash] == outcome.row
                  && s'.rows[hash] == Row(s.rows[hash].id, s.rows[hash].user, s.rows[hash].family,
                                          s.rows[hash].expiresAt, Some(now), Some(s.nextId)))
            && (!outcome.Issued? ==> s' == s)
  {
  }

  /** The three refusals: a spent token is a reuse, whatever its age; an unknown or expired one is invalid. */
  lemma RefusedIff(s: Store, hash: Hash, nextHash: Hash, nextExpiry: Instant, now: Instant)
    ensures var outcome := Consumed(s, hash, nextHash, nextExpiry, now).1;
            && (outcome.Reused? <==> hash in s.rows && s.rows[hash].revokedAt != None)
            && (outcome.Reused? ==> outcome.family == s.rows[hash].family)
            && (outcome == Rejected(InvalidRefreshToken) <==>
                  hash !in s.rows || (s.rows[hash].revokedAt == None && s.rows[hash].expiresAt <= now))
            && (outcome == Rejected(DuplicateHash) <==> Usable(s.rows, hash, now) && nextHash in s.rows)
            && outcome != Rejected(TokenReused)
  {
  }

  /** A sign-in adds the row asked for, open, or nothing when the hash is taken. */
  lemma SignInIsExact(s: Store, user: nat, family: Family, hash: Hash, expiresAt: Instant)
    ensures var (s', r) := Created(s, user, family, hash, expiresAt);
            if hash in s.rows then s' == s && r == Err(DuplicateHash)
            else && r == Ok(Row(s.nextId, user, family, expiresAt, None, None)) && s'.nextId == s.nextId + 1
                 && SameBeside(s.rows, s'.rows, {hash}) && s'.rows[hash] == r.value
  {
  }

  predicate Concerns(op: Op, s: Store, row: Row) {
    match op
    case RevokeFamily(family, _) => row.family == family
    case RevokeByToken(hash, _) => hash in s.rows && row.family == s.rows[hash].family
    case RevokeUser(user, _) => row.user == user
    case _ => false
  }

  /** A revocation stamps the open rows it concerns with its time and leaves everything else alone. */
  lemma RevocationIsExact(s: Store, op: Op, h: Hash)
    requires Revoking(op)
    ensures var s' := Step(s, op);
            && s'.nextId == s.nextId && s'.rows.Keys == s.rows.Keys
            && (h in s.rows ==> s'.rows[h] ==
                                if Concerns(op, s, s.rows[h]) && s.rows[h].revokedAt == None
                                then s.rows[h].(revokedAt := Some(op.now)) else s.rows[h])
  {
  }

  /** The clean-up keeps exactly the rows that expire at the given time or later; of links, those to rows it keeps. */
  lemma CleanUpIsExact(s: Store, before: Instant, h: Hash)
    ensures var rows := ExpiredDeleted(s, before).rows;
            && (h in rows <==> h in s.rows && s.rows[h].expiresAt >= before)
            && (h in rows ==> rows[h] == s.rows[h].(replacedBy := rows[h].replacedBy))
            && (h in rows && rows[h].replacedBy != s.rows[h].replacedBy ==> rows[h].replacedBy == None)
            && (h in rows && s.rows[h].replacedBy.Some? ==>
                  (rows[h].replacedBy.Some? <==> exists g :: g in rows && rows[g].id == s.rows[h].replacedBy.value))
  {
    var kept, rows := Kept(s.rows, before), ExpiredDeleted(s, before).rows;
    SameIds(kept, rows);
  }

  // ---------------------------------------------------- an expired session is over

  /** The family was opened, and no token of it can be exchanged from t on. */
  ghost predicate OverSince(w: World, family: Family, t: Instant) {
    family in w.families && forall h :: h in w.store.rows && w.store.rows[h].family == family ==>
      w.store.rows[h].revokedAt.Some? || w.store.rows[h].expiresAt <= t
  }

  /** Every row of the family was there before, with the same identity, owner and expiry. */
  ghost predicate NothingNew(rows: map<Hash, Row>, rows': map<Hash, Row>, family: Family) {
    forall h :: h in rows' && rows'[h].family == family ==>
      && h in rows && rows[h].family == family && rows[h].id == rows'[h].id && rows[h].user == rows'[h].user
      && rows[h].expiresAt == rows'[h].expiresAt && (rows[h].revokedAt.Some? ==> rows'[h].revokedAt.Some?)
  }

  predicate ReadsClockFrom(op: Op, t: Instant) {
    op.Consume? ==> t <= op.now
  }

  lemma StepStaysOver(w: World, op: Op, family: Family, t: Instant)
    requires OverSince(w, family, t) && Fresh(w, op) && ReadsClockFrom(op, t)
    ensures NothingNew(w.store.rows, Advance(w, op).store.rows, family)
    ensures OverSince(Advance(w, op), family, t)
  {
    if op.Consume? {
      ExchangedIff(w.store, op.hash, op.nextHash, op.nextExpiry, op.now);
    }
  }

  lemma {:induction false} RunStaysOver(w: World, ops: seq<Op>, family: Family, t: Instant)
    requires OverSince(w, family, t) && FreshRun(w, ops)
    requires forall i :: 0 <= i < |ops| ==> ReadsClockFrom(ops[i], t)
    ensures NothingNew(w.store.rows, Run(w, ops).store.rows, family) && OverSince(Run(w, ops), family, t)
    decreases |ops|
  {
    if ops != [] {
      StepStaysOver(w, ops[0], family, t);
      RunStaysOver(Advance(w, ops[0]), ops[1..], family, t);
    }
  }

  lemma OpenTokenDecides(w: World, hash: Hash, t: Instant)
    requires Inv(w) && hash in w.store.rows && w.store.rows[hash].revokedAt.None? && w.store.rows[hash].expiresAt <= t
    ensures OverSince(w, w.store.rows[hash].family, t)
  {
    var rows := w.store.rows;
    assert RowOk(rows[hash], w.store.nextId, w.families);
    forall h | h in rows && rows[h].family == rows[hash].family && h != hash
      ensures rows[h].revokedAt.Some?
    {
      assert PairOk(rows[hash], rows[h]) && PairOk(rows[h], rows[hash]);
    }
  }

  /**
    Once the open token of a family has expired, the session is over: no run of transactions that read
    the clock from then on issues a row in the family, changes an expiry in it or exchanges a token of it.
   */
  lemma ExpiredIsOver(before: seq<Op>, hash: Hash, t: Instant, later: seq<Op>, again: Op)
    requires FreshRun(EMPTY, before) && FreshRun(Run(EMPTY, before), later)
    requires var rows := Run(EMPTY, before).store.rows;
             hash in rows && rows[hash].revokedAt.None? && rows[hash].expiresAt <= t
    requires forall i :: 0 <= i < |later| ==> ReadsClockFrom(later[i], t)
    requires again.Consume? && t <= again.now
    ensures var w := Run(EMPTY, before);
            var s := Run(w, later).store;
            var family := w.store.rows[hash].family;
            && NothingNew(w.store.rows, s.rows, family)
            && (Consumed(s, again.hash, again.nextHash, again.nextExpiry, again.now).1.Issued?
                ==> s.rows[again.hash].family != family)
  {
    var w := Run(EMPTY, before);
    RunKeepsInv(EMPTY, before);
    OpenTokenDecides(w, hash, t);
    RunStaysOver(w, later, w.store.rows[hash].family, t);
    ExchangedIff(Run(w, later).store, again.hash, again.nextHash, again.nextExpiry, again.now);
  }

  /** Until then it goes on: a family's open token is exchanged at any moment before its expiry, for any new hash. */
  lemma LiveUntilExpiry(s: Store, hash: Hash, nextHash: Hash, nextExpiry: Instant, now: Instant)
    requires hash in s.rows && s.rows[hash].revokedAt.None? && nextHash !in s.rows
    ensures Consumed(s, hash, nextHash, nextExpiry, now).1.Issued? <==> now < s.rows[hash].expiresAt
  {
    ExchangedIff(s, hash, nextHash, nextExpiry, now);
  }

  /** Expired at 10 and presented at 50: refused, and nothing changes. */
  lemma LateTokenIsRefused(s: Store)
    requires s.rows == map[1 := Row(0, 7, 7, 10, None, None)]
    ensures Consumed(s, 1, 2, 150, 50) == (s, Rejected(InvalidRefreshToken))
    ensures Consumed(s, 1, 2, 150, 9).1 == Issued(Row(s.nextId, 7, 7, 150, None, None))
  {
    RefusedIff(s, 1, 2, 150, 50);
    ExchangedIff(s, 1, 2, 150, 9);
  }
}
