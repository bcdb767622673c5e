/**
  Signing out while a refresh may be running. The server ends the session of the token the
  sign-out sent whenever that request arrives; the tab clears its store later still. A refresh
  that meets the server in between is taken for a theft.
 */
module SignOuts {
  import opened Prelude
  import opened Sessions
  import opened RefreshClient

  // ------------------------------------------------------------------ left alone

  /**
    Nobody else presents the tab's tokens or ends its sessions, what others insert is drawn fresh, and
    no answer is lost.
   */
  predicate LeavesAlone(s: System, e: Event) {
    match e
    case Other(op) =>
      && !Revoking(op)
      && (op.Create? ==> op.hash == s.issued && op.family == s.issued)
      && (op.Consume? ==>
            && op.nextHash == s.issued
            && s.client.stored != Some(op.hash) && s.client.inFlight != Some(op.hash)
            && s.answer != Some(Granted(op.hash)))
    case Lose => false
    case _ => true
  }

  predicate LeftAlone(s: System, events: seq<Event>)
    decreases |events|
  {
    events == [] || (LeavesAlone(s, events[0]) && LeftAlone(Next(s, events[0]), events[1..]))
  }

  /** The token that the running refresh will present, or has been granted and not yet stored. */
  function Pending(s: System): Option<Hash> {
    if s.client.inFlight.None? then None
    else match s.answer
         case None => s.client.inFlight
         case Some(Granted(token)) => Some(token)
         case Some(Refused) => None
  }

  /** The stored token, unless it is the one the running refresh has sent. */
  function Resting(s: System): Option<Hash> {
    if s.client.stored == s.client.inFlight then None else s.client.stored
  }

  // ------------------------------------------------------ exactly when it happens

  /** The family whose end arrives at the server with this event. */
  function EndedBy(s: System, e: Event): set<Family> {
    if e.EndSession? && e.token in s.leaving && e.token in s.world.store.rows
    then {s.world.store.rows[e.token].family}
    else {}
  }

  /** The server sees a refresh of a session that one of the tab's own sign-outs has ended. */
  predicate RefreshesEnded(s: System, ended: set<Family>, e: Event) {
    && e.Serve? && s.client.inFlight.Some? && s.answer.None?
    && s.client.inFlight.value in s.world.store.rows
    && s.world.store.rows[s.client.inFlight.value].family in ended
  }

  predicate RefreshesAnEndedSession(s: System, ended: set<Family>, events: seq<Event>)
    decreases |events|
  {
    events != [] &&
    (RefreshesEnded(s, ended, events[0]) ||
     RefreshesAnEndedSession(Next(s, events[0]), ended + EndedBy(s, events[0]), events[1..]))
  }

  /** A token of the tab that is revoked was revoked by a sign-out. */
  ghost predicate Excused(rows: map<Hash, Row>, ended: set<Family>, token: Option<Hash>) {
    token.Some? && token.value in rows && rows[token.value].revokedAt.Some? ==> rows[token.value].family in ended
  }

  /** Rows are of tokens and families drawn so far, and no ended family has a live row. */
  ghost predicate Accounted(w: World, ended: set<Family>, issued: nat) {
    && (forall h :: h in w.store.rows ==> h < issued && w.store.rows[h].family in w.families)
    && (forall f :: f in w.families ==> f < issued)
    && (forall f :: f in ended ==> Dead(w, f))
  }

  ghost predicate Watched(s: System, ended: set<Family>) {
    && RefreshClient.Inv(s, false) && !s.replayed
    && Accounted(s.world, ended, s.issued)
    && Excused(s.world.store.rows, ended, Pending(s))
    && Excused(s.world.store.rows, ended, Resting(s))
  }

  /** What the op inserts is the token, and the family if any, just drawn. */
  predicate Draws(op: Op, issued: nat) {
    && (op.Create? ==> op.hash == issued && op.family == issued)
    && (op.Consume? ==> op.nextHash == issued)
  }

  lemma OpKeepsFamilies(w: World, ended: set<Family>, issued: nat, op: Op)
    requires Accounted(w, ended, issued) && Draws(op, issued)
    ensures forall h :: h in Advance(w, op).store.rows ==>
              h < issued + 1 && Advance(w, op).store.rows[h].family in Advance(w, op).families
  {
  }

  lemma OpKeepsDead(w: World, ended: set<Family>, issued: nat, op: Op)
    requires Accounted(w, ended, issued) && Draws(op, issued)
    ensures forall f :: f in ended ==> Dead(Advance(w, op), f)
  {
    forall f | f in ended
      ensures Dead(Advance(w, op), f)
    {
      StepKeepsDead(w, op, f);
    }
  }

  lemma OpKeepsAccounts(w: World, ended: set<Family>, issued: nat, op: Op)
    requires Accounted(w, ended, issued) && Draws(op, issued)
    ensures Accounted(Advance(w, op), ended, issued + 1)
  {
    OpKeepsFamilies(w, ended, issued, op);
    OpKeepsDead(w, ended, issued, op);
  }

  lemma LandingKeepsAccounts(w: World, ended: set<Family>, issued: nat, token: Hash, now: Instant)
    requires Accounted(w, ended, issued) && token in w.store.rows
    ensures Accounted(Advance(w, RevokeByToken(token, now)), ended + {w.store.rows[token].family}, issued)
  {
    OpKeepsDead(w, ended, issued, RevokeByToken(token, now));
  }

  lemma NextKeepsAccounts(s: System, ended: set<Family>, e: Event)
    requires Accounted(s.world, ended, s.issued) && LeavesAlone(s, e)
    ensures Accounted(Next(s, e).world, ended + EndedBy(s, e), Next(s, e).issued)
  {
    match e {
      case SignIn(user, expiresAt) =>
        OpKeepsAccounts(s.world, ended, s.issued, Create(user, s.issued, s.issued, expiresAt));
      case Serve(expiry, now) =>
        if s.client.inFlight.Some? && s.answer.None? {
          ServedKeepsAccounts(s, ended, s.client.inFlight.value, expiry, now);
        }
      case Other(op) => OpKeepsAccounts(s.world, ended, s.issued, op);
      case EndSession(token, now) =>
        if EndedBy(s, e) != {} {
          LandingKeepsAccounts(s.world, ended, s.issued, token, now);
        }
      case _ =>
    }
  }

  lemma ServedKeepsAccounts(s: System, ended: set<Family>, token: Hash, expiry: Instant, now: Instant)
    requires Accounted(s.world, ended, s.issued)
    ensures Accounted(Served(s, token, expiry, now).world, ended, s.issued + 1)
  {
    var op := Consume(token, s.issued, expiry, now);
    var outcome := Consumed(s.world.store, token, s.issued, expiry, now).1;
    OpKeepsAccounts(s.world, ended, s.issued, op);
    if outcome.Reused? {
      OpKeepsFamilies(Advance(s.world, op), ended, s.issued + 1, RevokeFamily(outcome.family, now));
      OpKeepsDead(Advance(s.world, op), ended, s.issued + 1, RevokeFamily(outcome.family, now));
      assert forall h :: h in Served(s, token, expiry, now).world.store.rows ==> h in Advance(s.world, op).store.rows;
    }
  }

  /** A token that the event leaves in hand, and is not presented by it, stays excused. */
  lemma StaysExcused(s: System, ended: set<Family>, e: Event, token: Option<Hash>)
    requires LeavesAlone(s, e) && Excused(s.world.store.rows, ended, token)
    requires token.Some? ==> token.value < s.issued
    requires e.Serve? ==> (token.None? || token != s.client.inFlight) && !RefreshesEnded(s, ended, e)
    requires e.Serve? && s.client.inFlight.Some? && s.answer.None? ==>
               Excused(s.world.store.rows, ended, s.client.inFlight)
    requires e.Other? && e.op.Consume? ==> token != Some(e.op.hash)
    ensures Excused(Next(s, e).world.store.rows, ended + EndedBy(s, e), token)
  {
  }

  lemma ServeDetects(s: System, ended: set<Family>, e: Event)
    requires Watched(s, ended) && e.Serve?
    ensures Next(s, e).replayed <==> RefreshesEnded(s, ended, e)
  {
    var token := s.client.inFlight;
    if token.Some? && s.answer.None? && token.value in s.world.store.rows {
      assert s.world.store.rows[token.value].family in ended ==> s.world.store.rows[token.value].revokedAt.Some?;
    }
  }

  lemma PendingStaysExcused(s: System, ended: set<Family>, e: Event)
    requires Watched(s, ended) && LeavesAlone(s, e) && !RefreshesEnded(s, ended, e)
    ensures Excused(Next(s, e).world.store.rows, ended + EndedBy(s, e), Pending(Next(s, e)))
  {
    if e.Unauthorized401? && Starts(s.client) {
      StaysExcused(s, ended, e, Resting(s));
    } else if !e.Serve? || s.answer.Some? {
      StaysExcused(s, ended, e, Pending(s));
    }
  }

  lemma RestingStaysExcused(s: System, ended: set<Family>, e: Event)
    requires Watched(s, ended) && LeavesAlone(s, e) && !RefreshesEnded(s, ended, e)
    ensures Excused(Next(s, e).world.store.rows, ended + EndedBy(s, e), Resting(Next(s, e)))
  {
    if e.Deliver? && Pending(s).Some? {
      StaysExcused(s, ended, e, Pending(s));
    } else if !e.SignIn? {
      StaysExcused(s, ended, e, Resting(s));
    }
  }

  lemma NextIsWatched(s: System, ended: set<Family>, e: Event)
    requires Watched(s, ended) && LeavesAlone(s, e)
    ensures Next(s, e).replayed <==> RefreshesEnded(s, ended, e)
    ensures !Next(s, e).replayed ==> Watched(Next(s, e), ended + EndedBy(s, e))
  {
    if e.Serve? {
      ServeDetects(s, ended, e);
    }
    if !RefreshesEnded(s, ended, e) {
      NextKeepsInv(s, false, e);
      NextKeepsAccounts(s, ended, e);
      PendingStaysExcused(s, ended, e);
      RestingStaysExcused(s, ended, e);
    }
  }

  lemma {:induction false} ReplayedStays(s: System, events: seq<Event>)
    requires s.replayed
    ensures RunOf(s, events).replayed
    decreases |events|
  {
    if events != [] {
      ReplayedStays(Next(s, events[0]), events[1..]);
    }
  }

  lemma {:induction false} ReplayedExactly(s: System, ended: set<Family>, events: seq<Event>)
    requires Watched(s, ended) && LeftAlone(s, events)
    ensures RunOf(s, events).replayed <==> RefreshesAnEndedSession(s, ended, events)
    decreases |events|
  {
    if events != [] {
      NextIsWatched(s, ended, events[0]);
      var s' := Next(s, events[0]);
      if s'.replayed {
        ReplayedStays(s', events[1..]);
      } else {
        ReplayedExactly(s', ended + EndedBy(s, events[0]), events[1..]);
      }
    }
  }

  /**
    Left alone and with every response delivered, a tab is taken for a thief exactly when the server
    sees one of its refreshes after the sign-out of the same session.
   */
  lemma TakenForTheftIff(events: seq<Event>)
    requires LeftAlone(START, events)
    ensures RunOf(START, events).replayed <==> RefreshesAnEndedSession(START, {}, events)
  {
    ReplayedExactly(START, {}, events);
  }

  // ----------------------------------------------------------- orderly sign-outs

  predicate SameSession(rows: map<Hash, Row>, a: Hash, b: Hash) {
    a in rows && b in rows && rows[a].family == rows[b].family
  }

  /** A refresh of the session being left is running, or granted and not yet stored. */
  predicate RefreshPending(s: System) {
    s.client.stored.Some? && Pending(s).Some?
    && SameSession(s.world.store.rows, Pending(s).value, s.client.stored.value)
  }

  /** A sign-out finds no refresh of its session pending, and until the store is cleared no other starts. */
  predicate Waits(s: System, closing: bool, e: Event) {
    match e
    case SignOut => !RefreshPending(s)
    case Unauthorized401 => !(closing && Starts(s.client))
    case _ => true
  }

  /** Whether a sign-out has been sent and the store not yet cleared or replaced. */
  function ClosingAfter(s: System, closing: bool, e: Event): bool {
    match e
    case SignOut => closing || s.client.stored.Some?
    case SignIn(_, _) => false
    case Clear => false
    case _ => closing
  }

  predicate Orderly(s: System, closing: bool, events: seq<Event>)
    decreases |events|
  {
    events == [] ||
    (Waits(s, closing, events[0]) && Orderly(Next(s, events[0]), ClosingAfter(s, closing, events[0]), events[1..]))
  }

  /** No sign-out, landed or under way, is for the token's session. */
  ghost predicate Free(rows: map<Hash, Row>, leaving: set<Hash>, ended: set<Family>, token: Option<Hash>) {
    token.Some? && token.value in rows ==>
      && rows[token.value].family !in ended
      && forall h :: h in leaving && h in rows ==> rows[h].family != rows[token.value].family
  }

  ghost predicate Safe(s: System, ended: set<Family>, closing: bool) {
    && Watched(s, ended)
    && (forall h :: h in s.leaving ==> h < s.issued)
    && Free(s.world.store.rows, s.leaving, ended, Pending(s))
    && (!closing ==> Free(s.world.store.rows, s.leaving, ended, Resting(s)))
  }

  /** Rows keep their family, and only one hash, just drawn, is new. */
  ghost predicate RowsCarry(rows: map<Hash, Row>, rows': map<Hash, Row>, issued: nat) {
    forall h :: h in rows' && h != issued ==> h in rows && rows'[h].family == rows[h].family
  }

  lemma NextCarriesRows(s: System, e: Event)
    requires LeavesAlone(s, e)
    ensures RowsCarry(s.world.store.rows, Next(s, e).world.store.rows, s.issued)
  {
  }

  /** A token in hand stays free when sign-outs land, rows come and go, and new tokens are drawn. */
  lemma StaysFree(s: System, e: Event, ended: set<Family>, token: Option<Hash>)
    requires LeavesAlone(s, e) && !e.SignOut? && (token.Some? ==> token.value < s.issued)
    requires forall h :: h in s.leaving ==> h < s.issued
    requires Free(s.world.store.rows, s.leaving, ended, token)
    ensures Free(Next(s, e).world.store.rows, Next(s, e).leaving, ended + EndedBy(s, e), token)
  {
    NextCarriesRows(s, e);
    assert Next(s, e).leaving <= s.leaving;
  }

  /** So is one granted for it. */
  lemma GrantIsFree(s: System, e: Event, ended: set<Family>)
    requires e.Serve? && LeavesAlone(s, e) && Next(s, e).answer == Some(Granted(s.issued)) && s.answer.None?
    requires s.client.inFlight.Some? && forall h :: h in s.leaving ==> h < s.issued
    requires Free(s.world.store.rows, s.leaving, ended, s.client.inFlight)
    ensures Free(Next(s, e).world.store.rows, s.leaving, ended, Some(s.issued))
  {
    NextCarriesRows(s, e);
  }

  /** And one of a new session. */
  lemma SignInIsFree(s: System, e: Event, ended: set<Family>)
    requires e.SignIn? && Accounted(s.world, ended, s.issued) && forall h :: h in s.leaving ==> h < s.issued
    ensures Free(Next(s, e).world.store.rows, s.leaving, ended, Some(s.issued))
  {
  }

  lemma SignOutIsSafe(s: System, ended: set<Family>, closing: bool)
    requires Safe(s, ended, closing) && Waits(s, closing, SignOut)
    ensures Safe(Next(s, SignOut), ended + EndedBy(s, SignOut), ClosingAfter(s, closing, SignOut))
  {
    NextIsWatched(s, ended, SignOut);
  }

  lemma PendingStaysFree(s: System, ended: set<Family>, closing: bool, e: Event)
    requires Safe(s, ended, closing) && LeavesAlone(s, e) && Waits(s, closing, e) && !e.SignOut?
    ensures Free(Next(s, e).world.store.rows, Next(s, e).leaving, ended + EndedBy(s, e), Pending(Next(s, e)))
  {
    var p, p' := Pending(s), Pending(Next(s, e));
    if p' == p || p'.None? {
      StaysFree(s, e, ended, p);
    } else if e.Serve? {
      GrantIsFree(s, e, ended);
    } else {
      StaysFree(s, e, ended, Resting(s));
    }
  }

  lemma RestingStaysFree(s: System, ended: set<Family>, closing: bool, e: Event)
    requires Safe(s, ended, closing) && LeavesAlone(s, e) && Waits(s, closing, e) && !e.SignOut?
    requires !ClosingAfter(s, closing, e)
    ensures Free(Next(s, e).world.store.rows, Next(s, e).leaving, ended + EndedBy(s, e), Resting(Next(s, e)))
  {
    if e.SignIn? {
      SignInIsFree(s, e, ended);
    } else if e.Deliver? && Pending(s).Some? {
      StaysFree(s, e, ended, Pending(s));
    } else if !closing {
      StaysFree(s, e, ended, Resting(s));
    }
  }

  lemma NextIsSafe(s: System, ended: set<Family>, closing: bool, e: Event)
    requires Safe(s, ended, closing) && LeavesAlone(s, e) && Waits(s, closing, e)
    ensures Safe(Next(s, e), ended + EndedBy(s, e), ClosingAfter(s, closing, e))
  {
    if e.SignOut? {
      SignOutIsSafe(s, ended, closing);
    } else {
      PendingStaysFree(s, ended, closing, e);
      if !ClosingAfter(s, closing, e) {
        RestingStaysFree(s, ended, closing, e);
      }
      assert !RefreshesEnded(s, ended, e);
      NextIsWatched(s, ended, e);
    }
  }

  /** What a run of the machine leaves behind: the families ended, and whether the tab is closing. */
  lemma {:induction false} RunIsSafe(s: System, ended: set<Family>, closing: bool, events: seq<Event>)
    returns (ended': set<Family>, closing': bool)
    requires Safe(s, ended, closing) && LeftAlone(s, events) && Orderly(s, closing, events)
    ensures Safe(RunOf(s, events), ended', closing')
    decreases |events|
  {
    if events == [] {
      ended', closing' := ended, closing;
    } else {
      var e := events[0];
      NextIsSafe(s, ended, closing, e);
      ended', closing' := RunIsSafe(Next(s, e), ended + EndedBy(s, e), ClosingAfter(s, closing, e), events[1..]);
    }
  }

  /** Left alone, with every response delivered and every sign-out orderly, a tab is never taken for a thief. */
  lemma NeverTakenForTheft(events: seq<Event>)
    requires LeftAlone(START, events) && Orderly(START, false, events)
    ensures !RunOf(START, events).replayed
  {
    var ended, closing := RunIsSafe(START, {}, false, events);
  }

  /** In no orderly continuation, the tab left alone, is a reuse detected. */
  ghost predicate NeverDetected(s: System) {
    forall later :: !Detected(s, true, later)
  }

  /** Left alone and orderly from here on, and taken for a thief. */
  predicate Detected(s: System, closing: bool, later: seq<Event>) {
    LeftAlone(s, later) && Orderly(s, closing, later) && RunOf(s, later).replayed
  }

  lemma First(s: System, closing: bool, e: Event, rest: seq<Event>)
    requires LeavesAlone(s, e) && Waits(s, closing, e) && Detected(Next(s, e), ClosingAfter(s, closing, e), rest)
    ensures Detected(s, closing, [e] + rest)
  {
    assert ([e] + rest)[1..] == rest;
  }

  lemma RevokedIsDetected(s: System, closing: bool)
    requires s.client.inFlight.Some? && s.answer.None?
    requires var h := s.client.inFlight.value;
             h in s.world.store.rows && s.world.store.rows[h].revokedAt.Some?
    ensures Detected(s, closing, [Serve(0, 0)])
  {
    assert [Serve(0, 0)][1..] == [];
  }

  lemma LandedOnGrant(s: System)
    requires s.client.inFlight.Some? && s.answer.Some? && s.answer.value.Granted?
    requires var h := s.answer.value.token;
             h in s.world.store.rows && s.world.store.rows[h].revokedAt.Some?
    ensures Detected(s, true, [Clear] + ([Deliver] + ([Unauthorized401] + [Serve(0, 0)])))
  {
    var cleared := Next(s, Clear);
    var stored := Next(cleared, Deliver);
    RevokedIsDetected(Next(stored, Unauthorized401), false);
    First(stored, false, Unauthorized401, [Serve(0, 0)]);
    First(cleared, false, Deliver, [Unauthorized401] + [Serve(0, 0)]);
    First(s, true, Clear, [Deliver] + ([Unauthorized401] + [Serve(0, 0)]));
  }

  lemma LandingRevokes(s: System, token: Hash)
    requires token in s.leaving && RefreshPending(s) && s.client.stored == Some(token)
    ensures var landed := Next(s, EndSession(token, 0));
            && landed.client == s.client && landed.answer == s.answer
            && Pending(s).value in landed.world.store.rows
            && landed.world.store.rows[Pending(s).value].revokedAt.Some?
  {
  }

  lemma PendingIsDetected(s: System) returns (later: seq<Event>)
    requires s.client.stored.Some? && RefreshPending(s)
    ensures Detected(Next(s, SignOut), true, later)
  {
    var left, land := Next(s, SignOut), EndSession(s.client.stored.value, 0);
    LandingRevokes(left, s.client.stored.value);
    if s.answer.None? {
      RevokedIsDetected(Next(left, land), true);
      later := [land] + [Serve(0, 0)];
      First(left, true, land, [Serve(0, 0)]);
    } else {
      LandedOnGrant(Next(left, land));
      First(left, true, land, [Clear] + ([Deliver] + ([Unauthorized401] + [Serve(0, 0)])));
      later := [land] + ([Clear] + ([Deliver] + ([Unauthorized401] + [Serve(0, 0)])));
    }
  }

  /**
    A sign-out after any orderly run: no orderly continuation is
    taken for a theft exactly when no refresh of the session is running or granted and not stored.
   */
  lemma SignOutIsSafeIff(events: seq<Event>)
    requires LeftAlone(START, events) && Orderly(START, false, events)
    requires RunOf(START, events).client.stored.Some?
    ensures NeverDetected(Next(RunOf(START, events), SignOut)) <==> !RefreshPending(RunOf(START, events))
  {
    var s := RunOf(START, events);
    var ended, closing := RunIsSafe(START, {}, false, events);
    if RefreshPending(s) {
      var later := PendingIsDetected(s);
    } else {
      var left := Next(s, SignOut);
      NextIsSafe(s, ended, closing, SignOut);
      forall later
        ensures !Detected(left, true, later)
      {
        if LeftAlone(left, later) && Orderly(left, true, later) {
          var ended', closing' := RunIsSafe(left, ended, true, later);
        }
      }
    }
  }

  // ------------------------------------------------------------------ three runs

  lemma {:induction false} OnItsOwn(s: System, events: seq<Event>)
    requires forall e :: e in events ==> !e.Other? && !e.Lose?
    ensures LeftAlone(s, events)
    decreases |events|
  {
    if events != [] {
      assert events[0] in events;
      OnItsOwn(Next(s, events[0]), events[1..]);
    }
  }

  lemma FiveEvents(s: System, a: Event, b: Event, c: Event, d: Event, e: Event)
    ensures RunOf(s, [a, b, c, d, e]) == Next(Next(Next(Next(Next(s, a), b), c), d), e)
  {
    assert [a, b, c, d, e] == [a] + [b, c, d, e];
    Unrolled(s, a, [b, c, d, e]);
    FourEvents(Next(s, a), b, c, d, e);
  }

  /** The sign-out lands while a refresh is on its way: the refresh is taken for a theft. */
  lemma SignOutOvertakesARefresh()
    ensures var run := [SignIn(1, 100), Unauthorized401, SignOut, EndSession(0, 5), Serve(200, 6)];
            LeftAlone(START, run) && RunOf(START, run).replayed
  {
    var landed := Next(Next(Next(Next(START, SignIn(1, 100)), Unauthorized401), SignOut), EndSession(0, 5));
    FiveEvents(START, SignIn(1, 100), Unauthorized401, SignOut, EndSession(0, 5), Serve(200, 6));
    OnItsOwn(START, [SignIn(1, 100), Unauthorized401, SignOut, EndSession(0, 5), Serve(200, 6)]);
    assert landed.world.store.rows[0].revokedAt.Some?;
  }

  /** A 401 between the landing and the clearing of the store starts a refresh of the ended session. */
  lemma RefreshWhileLeaving()
    ensures var run := [SignIn(1, 100), SignOut, EndSession(0, 5), Unauthorized401, Serve(200, 6)];
            LeftAlone(START, run) && RunOf(START, run).replayed
  {
    var landed := Next(Next(Next(START, SignIn(1, 100)), SignOut), EndSession(0, 5));
    FiveEvents(START, SignIn(1, 100), SignOut, EndSession(0, 5), Unauthorized401, Serve(200, 6));
    OnItsOwn(START, [SignIn(1, 100), SignOut, EndSession(0, 5), Unauthorized401, Serve(200, 6)]);
    assert landed.world.store.rows[0].revokedAt.Some?;
  }

  const GRANTED := [SignIn(1, 100), Unauthorized401, Serve(200, 5), SignOut, EndSession(0, 6)]

  /** The tab when the grant of a refresh it signed out of is still on its way, its session ended. */
  lemma GrantIsUnderWay()
    ensures var landed := RunOf(START, GRANTED);
            && landed.client.inFlight == Some(0) && landed.answer == Some(Granted(1)) && !landed.replayed
            && 1 in landed.world.store.rows && landed.world.store.rows[1].revokedAt.Some?
  {
    FiveEvents(START, SignIn(1, 100), Unauthorized401, Serve(200, 5), SignOut, EndSession(0, 6));
  }

  /** A grant delivered after the sign-out: the tab holds a token again, and its next refresh is taken for a theft. */
  lemma GrantOutlivesTheSignOut()
    ensures var run := GRANTED + [Clear, Deliver];
            LeftAlone(START, run) && RunOf(START, run).client.stored == Some(1) && !RunOf(START, run).replayed
    ensures var run := GRANTED + [Clear, Deliver, Unauthorized401, Serve(300, 7)];
            LeftAlone(START, run) && RunOf(START, run).replayed
  {
    var landed := RunOf(START, GRANTED);
    GrantIsUnderWay();
    RefreshClient.RunAppend(START, GRANTED, [Clear, Deliver]);
    TwoEvents(landed, Clear, Deliver);
    RefreshClient.RunAppend(START, GRANTED, [Clear, Deliver, Unauthorized401, Serve(300, 7)]);
    FourEvents(landed, Clear, Deliver, Unauthorized401, Serve(300, 7));
    OnItsOwn(START, GRANTED + [Clear, Deliver]);
    OnItsOwn(START, GRANTED + [Clear, Deliver, Unauthorized401, Serve(300, 7)]);
  }
}
