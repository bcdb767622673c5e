/**
  Sessions one statement at a time. A rotation holds its row from the check to the commit,
  and its successor is unseen until then; a revocation ends the rows that were live when its
  UPDATE began, waiting for those another transaction holds.
 */
module SessionOverlap {
  import opened Prelude
  import opened Sessions

  type Tx = nat

  /** A rotation that has checked and locked its row. */
  datatype Rotation = Rotation(hash: Hash, now: Instant)

  /** What is committed, the open rotations, and the ids each open revocation saw live. */
  datatype Table = Table(world: World, rotations: map<Tx, Rotation>, revocations: map<Tx, set<nat>>)

  datatype Statement =
    | SignIn(user: nat, family: Family, hash: Hash, expiresAt: Instant)
    | Lock(tx: Tx, hash: Hash, now: Instant)
    | Commit(tx: Tx, nextHash: Hash, nextExpiry: Instant)
    | Abort(tx: Tx)
    | BeginRevoke(tx: Tx, family: Family)
    | BeginRevokeUser(tx: Tx, user: nat)
    | EndRevoke(tx: Tx, now: Instant)
    | Cleanup(before: Instant)

  const NO_ROWS := Table(EMPTY, map[], map[])

  // ---------------------------------------------------------------- statements

  predicate Live(rows: map<Hash, Row>, h: Hash) {
    h in rows && rows[h].revokedAt.None?
  }

  function LiveInFamily(rows: map<Hash, Row>, family: Family): set<nat> {
    set h | h in rows && Live(rows, h) && rows[h].family == family :: rows[h].id
  }

  function LiveOfUser(rows: map<Hash, Row>, user: nat): set<nat> {
    set h | h in rows && Live(rows, h) && rows[h].user == user :: rows[h].id
  }

  function SeenEnded(s: Store, seen: set<nat>, now: Instant): Store {
    s.(rows := map h | h in s.rows :: if s.rows[h].id in seen then Ended(s.rows[h], now) else s.rows[h])
  }

  ghost predicate Locked(t: Table, hash: Hash) {
    exists tx :: tx in t.rotations && t.rotations[tx].hash == hash
  }

  /** A statement that would wait is not enabled; one that fails a check commits nothing and is left out. */
  ghost predicate Enabled(t: Table, s: Statement) {
    var rows := t.world.store.rows;
    match s
    case SignIn(_, family, _, _) => family !in t.world.families
    case Lock(tx, hash, now) =>
      tx !in t.rotations && Live(rows, hash) && rows[hash].expiresAt > now && !Locked(t, hash)
    case Commit(tx, nextHash, _) => tx in t.rotations && nextHash !in rows
    case Abort(tx) => tx in t.rotations
    case BeginRevoke(tx, _) => tx !in t.revocations
    case BeginRevokeUser(tx, _) => tx !in t.revocations
    case EndRevoke(tx, _) =>
      tx in t.revocations && forall h :: h in rows && rows[h].id in t.revocations[tx] ==> !Locked(t, h)
    case Cleanup(before) => forall h :: h in rows && rows[h].expiresAt < before ==> !Locked(t, h)
  }

  function Next(t: Table, s: Statement): Table {
    var rows := t.world.store.rows;
    match s
    case SignIn(user, family, hash, expiresAt) => t.(world := Advance(t.world, Create(user, family, hash, expiresAt)))
    case Lock(tx, hash, now) => t.(rotations := t.rotations[tx := Rotation(hash, now)])
    case Commit(tx, nextHash, nextExpiry) =>
      if tx in t.rotations then
        var r := t.rotations[tx];
        t.(world := Advance(t.world, Consume(r.hash, nextHash, nextExpiry, r.now)), rotations := t.rotations - {tx})
      else t
    case Abort(tx) => t.(rotations := t.rotations - {tx})
    case BeginRevoke(tx, family) => t.(revocations := t.revocations[tx := LiveInFamily(rows, family)])
    case BeginRevokeUser(tx, user) => t.(revocations := t.revocations[tx := LiveOfUser(rows, user)])
    case EndRevoke(tx, now) =>
      if tx in t.revocations then
        t.(world := t.world.(store := SeenEnded(t.world.store, t.revocations[tx], now)),
           revocations := t.revocations - {tx})
      else t
    case Cleanup(before) => t.(world := Advance(t.world, DeleteExpired(before)))
  }

  function RunOf(t: Table, steps: seq<Statement>): Table
    decreases |steps|
  {
    if steps == [] then t else RunOf(Next(t, steps[0]), steps[1..])
  }

  ghost predicate Legal(t: Table, steps: seq<Statement>)
    decreases |steps|
  {
    steps == [] || (Enabled(t, steps[0]) && Legal(Next(t, steps[0]), steps[1..]))
  }

  /** A revocation stamps, when it ends, the rows it saw live when it began that are still open. */
  lemma RevocationStatements(t: Table, begin: Statement, end: Statement, h: Hash, id: nat)
    requires begin.BeginRevoke? || begin.BeginRevokeUser?
    requires end.EndRevoke? && end.tx in t.revocations
    ensures var rows := t.world.store.rows;
            var t' := Next(t, begin);
            && t' == t.(revocations := t'.revocations) && begin.tx in t'.revocations
            && (id in t'.revocations[begin.tx] <==>
                exists g :: g in rows && rows[g].id == id && rows[g].revokedAt == None
                            && (if begin.BeginRevoke? then rows[g].family == begin.family
                                else rows[g].user == begin.user))
    ensures var rows, rows' := t.world.store.rows, Next(t, end).world.store.rows;
            && rows'.Keys == rows.Keys && end.tx !in Next(t, end).revocations
            && (h in rows ==> rows'[h] ==
                              if rows[h].id in t.revocations[end.tx] && rows[h].revokedAt == None
                              then rows[h].(revokedAt := Some(end.now)) else rows[h])
  {
  }

  // ----------------------------------------------------------------- invariant

  /** A held row is in the table, live, and was unexpired when it was checked. */
  predicate Ready(rows: map<Hash, Row>, r: Rotation) {
    Live(rows, r.hash) && rows[r.hash].expiresAt > r.now
  }

  ghost predicate Held(rows: map<Hash, Row>, rotations: map<Tx, Rotation>) {
    && (forall tx :: tx in rotations ==> Ready(rows, rotations[tx]))
    && (forall a, b :: a in rotations && b in rotations && a != b ==> rotations[a].hash != rotations[b].hash)
  }

  ghost predicate Seen(revocations: map<Tx, set<nat>>, nextId: nat) {
    forall tx, id :: tx in revocations && id in revocations[tx] ==> id < nextId
  }

  ghost predicate Inv(t: Table) {
    && Sessions.Inv(t.world)
    && Held(t.world.store.rows, t.rotations)
    && Seen(t.revocations, t.world.store.nextId)
  }

  /** A commit is never refused: the lock has kept what the check saw. */
  lemma CommitIssues(t: Table, s: Statement)
    requires Inv(t) && s.Commit? && Enabled(t, s)
    ensures var r := t.rotations[s.tx];
            var (store, outcome) := Consumed(t.world.store, r.hash, s.nextHash, s.nextExpiry, r.now);
            && Ready(t.world.store.rows, r) && outcome.Issued? && Next(t, s).world.store == store
            && store.nextId == t.world.store.nextId + 1
  {
    assert Ready(t.world.store.rows, t.rotations[s.tx]);
  }

  lemma CommitKeepsInv(t: Table, s: Statement)
    requires Inv(t) && s.Commit? && Enabled(t, s)
    ensures Inv(Next(t, s))
  {
    var r := t.rotations[s.tx];
    CommitIssues(t, s);
    StepKeepsInv(t.world, Consume(r.hash, s.nextHash, s.nextExpiry, r.now));
    forall tx | tx in Next(t, s).rotations
      ensures Ready(Next(t, s).world.store.rows, t.rotations[tx])
    {
      assert Ready(t.world.store.rows, t.rotations[tx]) && t.rotations[tx].hash != r.hash;
    }
  }

  lemma SeenEndedOnlyEnds(s: Store, seen: set<nat>, now: Instant)
    ensures OnlyEnded(s.rows, SeenEnded(s, seen, now).rows)
  {
  }

  lemma EndRevokeKeepsInv(t: Table, s: Statement)
    requires Inv(t) && s.EndRevoke? && Enabled(t, s)
    ensures Inv(Next(t, s))
  {
    var rows, rows' := t.world.store.rows, Next(t, s).world.store.rows;
    SeenEndedOnlyEnds(t.world.store, t.revocations[s.tx], s.now);
    EndingKeepsGood(rows, rows', t.world.store.nextId, t.world.families);
    forall tx | tx in t.rotations
      ensures Ready(rows', t.rotations[tx])
    {
      assert Ready(rows, t.rotations[tx]) && Locked(t, t.rotations[tx].hash);
    }
  }

  lemma CleanupKeepsInv(t: Table, s: Statement)
    requires Inv(t) && s.Cleanup? && Enabled(t, s)
    ensures Inv(Next(t, s))
  {
    StepKeepsInv(t.world, DeleteExpired(s.before));
    forall tx | tx in t.rotations
      ensures Ready(Next(t, s).world.store.rows, t.rotations[tx])
    {
      assert Ready(t.world.store.rows, t.rotations[tx]) && Locked(t, t.rotations[tx].hash);
    }
  }

  lemma SignInKeepsInv(t: Table, s: Statement)
    requires Inv(t) && s.SignIn? && Enabled(t, s)
    ensures Inv(Next(t, s))
  {
    StepKeepsInv(t.world, Create(s.user, s.family, s.hash, s.expiresAt));
    forall tx | tx in t.rotations
      ensures Ready(Next(t, s).world.store.rows, t.rotations[tx])
    {
      assert Ready(t.world.store.rows, t.rotations[tx]);
    }
  }

  lemma LiveIsSeen(t: Table, family: Family, user: nat)
    requires Inv(t)
    ensures forall id :: id in LiveInFamily(t.world.store.rows, family) ==> id < t.world.store.nextId
    ensures forall id :: id in LiveOfUser(t.world.store.rows, user) ==> id < t.world.store.nextId
  {
    IdsAreBelow(t.world.store.rows, t.world.store.nextId, t.world.families);
  }

  lemma StatementKeepsInv(t: Table, s: Statement)
    requires Inv(t) && Enabled(t, s)
    ensures Inv(Next(t, s))
  {
    match s {
      case SignIn(_, _, _, _) => SignInKeepsInv(t, s);
      case Lock(tx, hash, now) =>
        forall other | other in t.rotations
          ensures Ready(t.world.store.rows, t.rotations[other]) && t.rotations[other].hash != hash
        {
        }
      case Commit(_, _, _) => CommitKeepsInv(t, s);
      case Abort(_) =>
      case BeginRevoke(_, family) => LiveIsSeen(t, family, 0);
      case BeginRevokeUser(_, user) => LiveIsSeen(t, 0, user);
      case EndRevoke(_, _) => EndRevokeKeepsInv(t, s);
      case Cleanup(_) => CleanupKeepsInv(t, s);
    }
  }

  lemma {:induction false} RunKeepsInv(t: Table, steps: seq<Statement>)
    requires Inv(t) && Legal(t, steps)
    ensures Inv(RunOf(t, steps))
    decreases |steps|
  {
    if steps != [] {
      StatementKeepsInv(t, steps[0]);
      RunKeepsInv(Next(t, steps[0]), steps[1..]);
    }
  }

  /** After any interleaving of statements a family still has at most one live token, its newest. */
  lemma OneLiveTokenPerFamily(steps: seq<Statement>, g: Hash, h: Hash)
    requires Legal(NO_ROWS, steps)
    requires var rows := RunOf(NO_ROWS, steps).world.store.rows;
             Live(rows, g) && h in rows && rows[h].family == rows[g].family
    ensures var rows := RunOf(NO_ROWS, steps).world.store.rows;
            h == g || (!Live(rows, h) && rows[h].id < rows[g].id)
  {
    RunKeepsInv(NO_ROWS, steps);
    var rows := RunOf(NO_ROWS, steps).world.store.rows;
    assert PairOk(rows[g], rows[h]) && PairOk(rows[h], rows[g]);
  }

  // ---------------------------------------------------- what a revocation misses

  predicate Rotates(t: Table, s: Statement, family: Family) {
    && s.Commit? && s.tx in t.rotations
    && var rows := t.world.store.rows;
       t.rotations[s.tx].hash in rows && rows[t.rotations[s.tx].hash].family == family
  }

  predicate RotatedDuring(t: Table, steps: seq<Statement>, family: Family)
    decreases |steps|
  {
    steps != [] && (Rotates(t, steps[0], family) || RotatedDuring(Next(t, steps[0]), steps[1..], family))
  }

  /** Every live row of the family is one the revocation saw. */
  ghost predicate Covered(t: Table, tx: Tx, family: Family) {
    && tx in t.revocations && family in t.world.families
    && var rows := t.world.store.rows;
       forall h :: Live(rows, h) && rows[h].family == family ==> rows[h].id in t.revocations[tx]
  }

  ghost predicate Missed(t: Table, tx: Tx, family: Family) {
    && tx in t.revocations && family in t.world.families
    && var rows := t.world.store.rows;
       exists h :: Live(rows, h) && rows[h].family == family && rows[h].id !in t.revocations[tx]
  }

  /** A statement of some other transaction than the revocation. */
  predicate Foreign(s: Statement, tx: Tx) {
    !(s.EndRevoke? && s.tx == tx)
  }

  /** The statements in between end no revocation and delete nothing. */
  predicate Calm(s: Statement) {
    !s.EndRevoke? && !s.Cleanup?
  }

  lemma StaysCovered(t: Table, s: Statement, tx: Tx, family: Family)
    requires Inv(t) && Enabled(t, s) && Foreign(s, tx) && Covered(t, tx, family) && !Rotates(t, s, family)
    ensures Covered(Next(t, s), tx, family)
  {
    if s.Commit? {
      CommitIssues(t, s);
    }
  }

  lemma RotationIsMissed(t: Table, s: Statement, tx: Tx, family: Family)
    requires Inv(t) && Enabled(t, s) && tx in t.revocations && family in t.world.families && Rotates(t, s, family)
    ensures Missed(Next(t, s), tx, family)
  {
    CommitIssues(t, s);
    var rows' := Next(t, s).world.store.rows;
    assert Live(rows', s.nextHash) && rows'[s.nextHash].id == t.world.store.nextId;
  }

  /** Between revocations and clean-ups only its own rotation touches a live row. */
  lemma LiveRowStays(t: Table, s: Statement, h: Hash)
    requires Inv(t) && Enabled(t, s) && Calm(s) && Live(t.world.store.rows, h)
    requires s.Commit? ==> t.rotations[s.tx].hash != h
    ensures Live(Next(t, s).world.store.rows, h) && Next(t, s).world.store.rows[h] == t.world.store.rows[h]
  {
    if s.Commit? {
      CommitIssues(t, s);
    }
  }

  lemma StillMissed(t: Table, tx: Tx, family: Family, h: Hash)
    requires tx in t.revocations && family in t.world.families && Live(t.world.store.rows, h)
    requires t.world.store.rows[h].family == family && t.world.store.rows[h].id !in t.revocations[tx]
    ensures Missed(t, tx, family)
  {
  }

  lemma StaysMissed(t: Table, s: Statement, tx: Tx, family: Family)
    requires Inv(t) && Enabled(t, s) && Calm(s) && Missed(t, tx, family) && !Rotates(t, s, family)
    ensures Missed(Next(t, s), tx, family)
  {
    var rows := t.world.store.rows;
    var h :| h in rows && Live(rows, h) && rows[h].family == family && rows[h].id !in t.revocations[tx];
    LiveRowStays(t, s, h);
    StillMissed(Next(t, s), tx, family, h);
  }

  lemma {:induction false} CoveredUnlessRotated(t: Table, steps: seq<Statement>, tx: Tx, family: Family)
    requires Inv(t) && Legal(t, steps) && Covered(t, tx, family) && !RotatedDuring(t, steps, family)
    requires forall s :: s in steps ==> Foreign(s, tx)
    ensures Covered(RunOf(t, steps), tx, family)
    decreases |steps|
  {
    if steps != [] {
      assert steps[0] in steps;
      StatementKeepsInv(t, steps[0]);
      StaysCovered(t, steps[0], tx, family);
      CoveredUnlessRotated(Next(t, steps[0]), steps[1..], tx, family);
    }
  }

  lemma {:induction false} MissedOnceRotated(t: Table, steps: seq<Statement>, tx: Tx, family: Family)
    requires Inv(t) && Legal(t, steps) && tx in t.revocations && family in t.world.families
    requires Missed(t, tx, family) || RotatedDuring(t, steps, family)
    requires forall s :: s in steps ==> Calm(s)
    ensures Missed(RunOf(t, steps), tx, family)
    decreases |steps|
  {
    if steps != [] {
      var s := steps[0];
      assert s in steps;
      StatementKeepsInv(t, s);
      if Rotates(t, s, family) {
        RotationIsMissed(t, s, tx, family);
      } else if Missed(t, tx, family) {
        StaysMissed(t, s, tx, family);
      }
      MissedOnceRotated(Next(t, s), steps[1..], tx, family);
    }
  }

  lemma BeginCovers(t: Table, tx: Tx, family: Family)
    requires Inv(t) && Enabled(t, BeginRevoke(tx, family)) && family in t.world.families
    ensures Inv(Next(t, BeginRevoke(tx, family))) && Covered(Next(t, BeginRevoke(tx, family)), tx, family)
  {
    StatementKeepsInv(t, BeginRevoke(tx, family));
  }

  lemma StatementKeepsDead(t: Table, s: Statement, family: Family)
    requires Inv(t) && Enabled(t, s) && Dead(t.world, family)
    ensures Dead(Next(t, s).world, family)
  {
    if s.Commit? {
      CommitIssues(t, s);
    }
  }

  lemma {:induction false} DeadStaysDead(t: Table, steps: seq<Statement>, family: Family)
    requires Inv(t) && Legal(t, steps) && Dead(t.world, family)
    ensures Dead(RunOf(t, steps).world, family)
    decreases |steps|
  {
    if steps != [] {
      StatementKeepsInv(t, steps[0]);
      StatementKeepsDead(t, steps[0], family);
      DeadStaysDead(Next(t, steps[0]), steps[1..], family);
    }
  }

  lemma RunCovers(t: Table, tx: Tx, family: Family, during: seq<Statement>)
    requires Inv(t) && family in t.world.families && Enabled(t, BeginRevoke(tx, family))
    requires var begun := Next(t, BeginRevoke(tx, family));
             Legal(begun, during) && !RotatedDuring(begun, during, family)
    requires forall s :: s in during ==> Foreign(s, tx)
    ensures var open := RunOf(Next(t, BeginRevoke(tx, family)), during);
            Inv(open) && Covered(open, tx, family)
  {
    BeginCovers(t, tx, family);
    RunKeepsInv(Next(t, BeginRevoke(tx, family)), during);
    CoveredUnlessRotated(Next(t, BeginRevoke(tx, family)), during, tx, family);
  }

  lemma EndingCoveredKills(open: Table, tx: Tx, family: Family, now: Instant)
    requires Covered(open, tx, family)
    ensures Dead(Next(open, EndRevoke(tx, now)).world, family)
  {
  }

  lemma EndingMissedSpares(open: Table, tx: Tx, family: Family, now: Instant)
    requires Missed(open, tx, family)
    ensures !Dead(Next(open, EndRevoke(tx, now)).world, family)
  {
    var rows := open.world.store.rows;
    var h :| Live(rows, h) && rows[h].family == family && rows[h].id !in open.revocations[tx];
    assert Live(Next(open, EndRevoke(tx, now)).world.store.rows, h);
  }

  /**
    A family revocation during which no rotation of the family commits ends the family for
    good, whatever other statements run during it and after it.
   */
  lemma UnrotatedRevocationIsFinal(t: Table, tx: Tx, family: Family, during: seq<Statement>, now: Instant,
        later: seq<Statement>)
    requires Inv(t) && family in t.world.families && Enabled(t, BeginRevoke(tx, family))
    requires var begun := Next(t, BeginRevoke(tx, family));
             Legal(begun, during) && !RotatedDuring(begun, during, family)
    requires forall s :: s in during ==> Foreign(s, tx)
    requires var open := RunOf(Next(t, BeginRevoke(tx, family)), during);
             Enabled(open, EndRevoke(tx, now)) && Legal(Next(open, EndRevoke(tx, now)), later)
    ensures var open := RunOf(Next(t, BeginRevoke(tx, family)), during);
            Dead(RunOf(Next(open, EndRevoke(tx, now)), later).world, family)
  {
    var open := RunOf(Next(t, BeginRevoke(tx, family)), during);
    RunCovers(t, tx, family, during);
    EndingCoveredKills(open, tx, family, now);
    StatementKeepsInv(open, EndRevoke(tx, now));
    DeadStaysDead(Next(open, EndRevoke(tx, now)), later, family);
  }

  /**
    Unless something else ends or deletes rows meanwhile, a family revocation leaves the family
    without a live token exactly when no rotation of the family commits while it is under way.
   */
  lemma RevocationMissesIff(t: Table, tx: Tx, family: Family, during: seq<Statement>, now: Instant)
    requires Inv(t) && family in t.world.families && Enabled(t, BeginRevoke(tx, family))
    requires Legal(Next(t, BeginRevoke(tx, family)), during) && forall s :: s in during ==> Calm(s)
    ensures var begun := Next(t, BeginRevoke(tx, family));
            var ended := Next(RunOf(begun, during), EndRevoke(tx, now));
            Dead(ended.world, family) <==> !RotatedDuring(begun, during, family)
  {
    var begun := Next(t, BeginRevoke(tx, family));
    if RotatedDuring(begun, during, family) {
      BeginCovers(t, tx, family);
      MissedOnceRotated(begun, during, tx, family);
      EndingMissedSpares(RunOf(begun, during), tx, family, now);
    } else {
      assert forall s :: s in during && Calm(s) ==> Foreign(s, tx);
      RunCovers(t, tx, family, during);
      EndingCoveredKills(RunOf(begun, during), tx, family, now);
    }
  }

  // ------------------------------------------------------------- no guarantee

  /** However the statements fall, the revocation leaves no live token in the family. */
  ghost predicate Sure(begun: Table, tx: Tx, family: Family) {
    forall during, now {:trigger Next(RunOf(begun, during), EndRevoke(tx, now))} ::
      && Legal(begun, during) && (forall s :: s in during ==> Foreign(s, tx))
      && Enabled(RunOf(begun, during), EndRevoke(tx, now))
      ==> Dead(Next(RunOf(begun, during), EndRevoke(tx, now)).world, family)
  }

  /** A live row is held already, or a rotation can come along and hold it. */
  lemma Holdable(t: Table, h: Hash) returns (tx: Tx, during: seq<Statement>)
    requires Live(t.world.store.rows, h)
    ensures Legal(t, during) && forall s :: s in during ==> s.Lock?
    ensures var held := RunOf(t, during);
            && held.world == t.world && held.revocations == t.revocations
            && tx in held.rotations && held.rotations[tx].hash == h
  {
    if Locked(t, h) {
      tx :| tx in t.rotations && t.rotations[tx].hash == h;
      during := [];
    } else {
      tx := Unused(t.rotations.Keys);
      during := [Lock(tx, h, t.world.store.rows[h].expiresAt - 1)];
      assert during[1..] == [];
    }
  }

  lemma {:induction false} RunAppend(t: Table, steps: seq<Statement>, s: Statement)
    ensures RunOf(t, steps + [s]) == Next(RunOf(t, steps), s)
    ensures Legal(t, steps + [s]) <==> Legal(t, steps) && Enabled(RunOf(t, steps), s)
    decreases |steps|
  {
    if steps == [] {
      assert (steps + [s])[1..] == [];
    } else {
      assert (steps + [s])[1..] == steps[1..] + [s];
      RunAppend(Next(t, steps[0]), steps[1..], s);
    }
  }

  lemma OnlyLiveOne(rows: map<Hash, Row>, g: Hash, h: Hash)
    requires PairsOk(rows) && UniqueIds(rows) && Live(rows, g) && Live(rows, h) && rows[g].family == rows[h].family
    ensures g == h
  {
    assert PairOk(rows[g], rows[h]) && PairOk(rows[h], rows[g]);
  }

  /** Of a family's live rows there is one; once its holder commits, no row seen by the revocation is held. */
  lemma CommitUnblocks(held: Table, s: Statement, family: Family, seen: set<nat>, h: Hash)
    requires Inv(held) && s.Commit? && Enabled(held, s) && Rotates(held, s, family)
    requires seen == LiveInFamily(held.world.store.rows, family)
    requires h in Next(held, s).world.store.rows && Next(held, s).world.store.rows[h].id in seen
    ensures !Locked(Next(held, s), h)
  {
    var rows, rows', mine := held.world.store.rows, Next(held, s).world.store.rows, held.rotations[s.tx].hash;
    CommitIssues(held, s);
    IdsAreBelow(rows, held.world.store.nextId, held.world.families);
    var g :| g in rows && Live(rows, g) && rows[g].family == family && rows[g].id == rows'[h].id;
    OnlyLiveOne(rows, g, mine);
    assert rows[g].id < held.world.store.nextId;
    assert h != s.nextHash && rows'[h].id == rows[h].id;
    assert h == mine;
  }

  /**
    No call of a family revocation is sure of its effect: every way the statements can fall
    leaves the family without a live token exactly when it had none to begin with.
   */
  lemma RevocationIsSureIff(t: Table, tx: Tx, family: Family)
    requires Inv(t) && family in t.world.families && Enabled(t, BeginRevoke(tx, family))
    ensures Sure(Next(t, BeginRevoke(tx, family)), tx, family) <==> Dead(t.world, family)
  {
    var begun := Next(t, BeginRevoke(tx, family));
    BeginCovers(t, tx, family);
    if Dead(t.world, family) {
      forall during, now | Legal(begun, during) && Enabled(RunOf(begun, during), EndRevoke(tx, now))
        ensures Dead(Next(RunOf(begun, during), EndRevoke(tx, now)).world, family)
      {
        RunKeepsInv(begun, during);
        DeadStaysDead(begun, during, family);
        StatementKeepsDead(RunOf(begun, during), EndRevoke(tx, now), family);
      }
    } else {
      SomeRunMisses(t, tx, family);
    }
  }

  /** Whoever holds the family's live row can commit, and the revocation then ends without its successor. */
  lemma HolderEscapes(held: Table, tx: Tx, s: Statement, family: Family)
    requires Inv(held) && s.Commit? && Enabled(held, s) && Rotates(held, s, family)
    requires tx in held.revocations && family in held.world.families
    requires held.revocations[tx] == LiveInFamily(held.world.store.rows, family)
    ensures Enabled(Next(held, s), EndRevoke(tx, 0))
    ensures !Dead(Next(Next(held, s), EndRevoke(tx, 0)).world, family)
  {
    RotationIsMissed(held, s, tx, family);
    forall h | h in Next(held, s).world.store.rows && Next(held, s).world.store.rows[h].id in held.revocations[tx]
      ensures !Locked(Next(held, s), h)
    {
      CommitUnblocks(held, s, family, held.revocations[tx], h);
    }
    EndingMissedSpares(Next(held, s), tx, family, 0);
  }

  /** A run after which the holder of a live row is about to commit. */
  lemma HolderArrives(t: Table, h: Hash) returns (during: seq<Statement>, s: Statement)
    requires Inv(t) && Live(t.world.store.rows, h)
    ensures var held := RunOf(t, during);
            && Inv(held) && held.world == t.world && held.revocations == t.revocations
            && s.Commit? && Enabled(held, s) && held.rotations[s.tx].hash == h
    ensures Legal(t, during + [s]) && RunOf(t, during + [s]) == Next(RunOf(t, during), s)
    ensures forall q, tx :: q in during + [s] ==> Foreign(q, tx)
  {
    var holder;
    holder, during := Holdable(t, h);
    var hash := Unused(t.world.store.rows.Keys);
    s := Commit(holder, hash, 0);
    RunKeepsInv(t, during);
    RunAppend(t, during, s);
  }

  lemma SomeRunMisses(t: Table, tx: Tx, family: Family)
    requires Inv(t) && family in t.world.families && Enabled(t, BeginRevoke(tx, family)) && !Dead(t.world, family)
    ensures !Sure(Next(t, BeginRevoke(tx, family)), tx, family)
  {
    var begun, rows := Next(t, BeginRevoke(tx, family)), t.world.store.rows;
    var h :| h in rows && Live(rows, h) && rows[h].family == family;
    BeginCovers(t, tx, family);
    var during, s := HolderArrives(begun, h);
    HolderEscapes(RunOf(begun, during), tx, s, family);
    NotSure(begun, tx, family, during + [s]);
  }

  lemma NotSure(begun: Table, tx: Tx, family: Family, run: seq<Statement>)
    requires Legal(begun, run) && forall s :: s in run ==> Foreign(s, tx)
    requires Enabled(RunOf(begun, run), EndRevoke(tx, 0))
    requires !Dead(Next(RunOf(begun, run), EndRevoke(tx, 0)).world, family)
    ensures !Sure(begun, tx, family)
  {
  }

  lemma First(t: Table, s: Statement, rest: seq<Statement>)
    ensures RunOf(t, [s] + rest) == RunOf(Next(t, s), rest)
    ensures Legal(t, [s] + rest) <==> Enabled(t, s) && Legal(Next(t, s), rest)
  {
    assert ([s] + rest)[1..] == rest;
  }

  const THEFT := [SignIn(1, 7, 10, 100), Lock(0, 10, 1), Commit(0, 11, 100), Lock(1, 11, 2)]
  const REPLAY := [BeginRevoke(2, 7), Commit(1, 12, 100), EndRevoke(2, 3)]

  /** The table once a thief has spent the token and is about to rotate its successor. */
  const STOLEN := Table(
    World(Store(map[10 := Row(0, 1, 7, 100, Some(1), Some(1)), 11 := Row(1, 1, 7, 100, None, None)], 2), {7}),
    map[1 := Rotation(11, 2)], map[])

  lemma TheftArrives()
    ensures Legal(NO_ROWS, THEFT) && RunOf(NO_ROWS, THEFT) == STOLEN
  {
    var t1 := Next(NO_ROWS, THEFT[0]);
    var t2 := Next(t1, THEFT[1]);
    var t3 := Next(t2, THEFT[2]);
    First(NO_ROWS, THEFT[0], THEFT[1..]);
    First(t1, THEFT[1], THEFT[2..]);
    First(t2, THEFT[2], THEFT[3..]);
    First(t3, THEFT[3], []);
    assert THEFT == [THEFT[0]] + THEFT[1..] && THEFT[1..] == [THEFT[1]] + THEFT[2..];
    assert THEFT[2..] == [THEFT[2]] + THEFT[3..] && THEFT[3..] == [THEFT[3]] + [];
    assert t1.world.store == Store(map[10 := Row(0, 1, 7, 100, None, None)], 1);
    assert t3.world == STOLEN.world && t3.rotations == map[];
  }

  lemma ReplayMisses()
    ensures Legal(STOLEN, REPLAY) && Live(RunOf(STOLEN, REPLAY).world.store.rows, 12)
    ensures RunOf(STOLEN, REPLAY).world.store.rows[12].family == 7
  {
    var t1 := Next(STOLEN, REPLAY[0]);
    var t2 := Next(t1, REPLAY[1]);
    First(STOLEN, REPLAY[0], REPLAY[1..]);
    First(t1, REPLAY[1], REPLAY[2..]);
    First(t2, REPLAY[2], []);
    assert REPLAY == [REPLAY[0]] + REPLAY[1..] && REPLAY[1..] == [REPLAY[1]] + REPLAY[2..];
    assert REPLAY[2..] == [REPLAY[2]] + [];
    assert t1.revocations[2] == {1};
    assert t2.rotations == map[] && t2.world.store.rows[12] == Row(2, 1, 7, 100, None, None);
  }

  /**
    A token stolen and already spent is replayed while the thief rotates its successor: the
    replay's revocation ends what it saw, and the thief keeps a live token of the family.
   */
  lemma TheftCanOutliveItsDetection()
    ensures Legal(NO_ROWS, THEFT) && Consumed(RunOf(NO_ROWS, THEFT).world.store, 10, 13, 100, 2).1 == Reused(7)
    ensures Legal(RunOf(NO_ROWS, THEFT), REPLAY)
    ensures Live(RunOf(RunOf(NO_ROWS, THEFT), REPLAY).world.store.rows, 12)
    ensures RunOf(RunOf(NO_ROWS, THEFT), REPLAY).world.store.rows[12].family == 7
  {
    TheftArrives();
    ReplayMisses();
  }
}
