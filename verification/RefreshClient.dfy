/** One browser tab and the session store: refreshing on a 401, with concurrent callers coalesced. */
module RefreshClient {
  import opened Prelude
  import opened Sessions

  // ------------------------------------------------------------------- client

  /** The stored refresh token, the token a running refresh has sent, and every token sent so far. */
  datatype Client = Client(stored: Option<Hash>, inFlight: Option<Hash>, presented: seq<Hash>)

  datatype Response = Granted(token: Hash) | Refused

  /** A 401 starts a refresh only with a token to send and none running. */
  predicate Starts(c: Client) {
    c.stored.Some? && c.inFlight.None?
  }

  function Unauthorized(c: Client): Client {
    if Starts(c) then c.(inFlight := c.stored, presented := c.presented + [c.stored.value]) else c
  }

  function Answered(c: Client, response: Response): Client {
    match response
    case Granted(token) => c.(stored := Some(token), inFlight := None)
    case Refused => c.(stored := None, inFlight := None)
  }

  /** The request or its response never arrived: the stored token stays. */
  function Failed(c: Client): Client {
    c.(inFlight := None)
  }

  // ------------------------------------------------------------------- system

  /**
    `leaving` holds the tokens of sign-outs the server has still to see, `issued` numbers the random
    tokens and families drawn so far, `replayed` records a detected reuse.
   */
  datatype System = System(world: World, client: Client, answer: Option<Response>, leaving: set<Hash>, issued: nat,
                           replayed: bool)

  const START := System(EMPTY, Client(None, None, []), None, {}, 0, false)

  /**
    A sign-out sends the stored token, whose family the server ends whenever the request arrives,
    if it does; the tab clears its store once it has the answer or the request has failed.
   */
  datatype Event =
    | SignIn(user: nat, expiresAt: Instant)
    | SignOut
    | EndSession(token: Hash, now: Instant)
    | Clear
    | Unauthorized401
    | Serve(nextExpiry: Instant, now: Instant)
    | Deliver
    | Lose
    | Other(op: Op)

  /** The server's side of the running refresh, with the revocation that follows a replay. */
  function Served(s: System, token: Hash, nextExpiry: Instant, now: Instant): System {
    var op := Consume(token, s.issued, nextExpiry, now);
    var after := s.(world := Advance(s.world, op), issued := s.issued + 1);
    match Consumed(s.world.store, token, s.issued, nextExpiry, now).1
    case Issued(_) => after.(answer := Some(Granted(s.issued)))
    case Reused(family) =>
      after.(world := Advance(after.world, RevokeFamily(family, now)), answer := Some(Refused), replayed := true)
    case Rejected(_) => after.(answer := Some(Refused))
  }

  function Next(s: System, e: Event): System {
    match e
    case SignIn(user, expiresAt) =>
      s.(world := Advance(s.world, Create(user, s.issued, s.issued, expiresAt)),
         client := s.client.(stored := Some(s.issued)), issued := s.issued + 1)
    case SignOut => if s.client.stored.Some? then s.(leaving := s.leaving + {s.client.stored.value}) else s
    case EndSession(token, now) =>
      if token in s.leaving
      then s.(world := Advance(s.world, RevokeByToken(token, now)), leaving := s.leaving - {token})
      else s
    case Clear => s.(client := s.client.(stored := None))
    case Unauthorized401 => s.(client := Unauthorized(s.client))
    case Serve(nextExpiry, now) =>
      if s.client.inFlight.Some? && s.answer.None? then Served(s, s.client.inFlight.value, nextExpiry, now) else s
    case Deliver =>
      if s.client.inFlight.Some? && s.answer.Some?
      then s.(client := Answered(s.client, s.answer.value), answer := None)
      else s
    case Lose => s.(client := Failed(s.client), answer := None)
    case Other(op) => s.(world := Advance(s.world, op), issued := s.issued + 1)
  }

  function RunOf(s: System, events: seq<Event>): System
    decreases |events|
  {
    if events == [] then s else RunOf(Next(s, events[0]), events[1..])
  }

  // ----------------------------------------------------------- presented once

  ghost predicate Drawn(s: System) {
    && (s.client.stored.Some? ==> s.client.stored.value < s.issued)
    && (forall t :: t in s.client.presented ==> t < s.issued)
    && (s.client.inFlight.Some? ==> s.client.inFlight.value in s.client.presented)
    && (s.answer.Some? ==> s.client.inFlight.Some?)
    && (s.answer.Some? && s.answer.value.Granted? ==>
          s.answer.value.token < s.issued && s.answer.value.token !in s.client.presented)
  }

  /** `kept` says that the stored token is one whose refresh was lost, which is the only way it was sent before. */
  ghost predicate Inv(s: System, kept: bool) {
    && Drawn(s)
    && (s.client.stored.Some? && s.client.stored.value in s.client.presented ==>
         kept || s.client.stored == s.client.inFlight)
    && (kept ==> s.client.inFlight.None? && s.client.stored.Some? && s.client.stored.value in s.client.presented)
  }

  /** Whether, after the event, the stored token is one whose refresh was lost. */
  predicate KeptAfter(s: System, kept: bool, e: Event) {
    match e
    case SignIn(_, _) => false
    case SignOut => kept
    case EndSession(_, _) => kept
    case Clear => false
    case Unauthorized401 => kept && !Starts(s.client)
    case Serve(_, _) => kept
    case Deliver => kept
    case Lose => kept || (s.client.inFlight.Some? && s.client.stored == s.client.inFlight)
    case Other(_) => kept
  }

  /** A 401 starts a refresh after a lost one, with no sign-in and no cleared store in between. */
  predicate RetriesALostRefresh(s: System, kept: bool, events: seq<Event>)
    decreases |events|
  {
    events != [] &&
    ((events[0].Unauthorized401? && Starts(s.client) && kept) ||
     RetriesALostRefresh(Next(s, events[0]), KeptAfter(s, kept, events[0]), events[1..]))
  }

  lemma NextKeepsInv(s: System, kept: bool, e: Event)
    requires Inv(s, kept)
    ensures Inv(Next(s, e), KeptAfter(s, kept, e))
    ensures Distinct(s.client.presented) ==>
              (Distinct(Next(s, e).client.presented) <==> !(e.Unauthorized401? && Starts(s.client) && kept))
    ensures !Distinct(s.client.presented) ==> !Distinct(Next(s, e).client.presented)
  {
    if e.Unauthorized401? && Starts(s.client) {
      DistinctAppend(s.client.presented, s.client.stored.value);
    }
  }

  lemma DistinctAppend<T>(xs: seq<T>, x: T)
    ensures Distinct(xs + [x]) <==> Distinct(xs) && x !in xs
  {
    var ys := xs + [x];
    if Distinct(ys) {
      assert forall i :: 0 <= i < |xs| ==> ys[i] == xs[i] && ys[i] != ys[|xs|];
    }
  }

  lemma {:induction false} RepeatsStay(s: System, kept: bool, events: seq<Event>)
    requires Inv(s, kept) && !Distinct(s.client.presented)
    ensures !Distinct(RunOf(s, events).client.presented)
    decreases |events|
  {
    if events != [] {
      NextKeepsInv(s, kept, events[0]);
      RepeatsStay(Next(s, events[0]), KeptAfter(s, kept, events[0]), events[1..]);
    }
  }

  lemma {:induction false} RepeatsExactly(s: System, kept: bool, events: seq<Event>)
    requires Inv(s, kept) && Distinct(s.client.presented)
    ensures Distinct(RunOf(s, events).client.presented) <==> !RetriesALostRefresh(s, kept, events)
    decreases |events|
  {
    if events != [] {
      NextKeepsInv(s, kept, events[0]);
      var kept' := KeptAfter(s, kept, events[0]);
      if Distinct(Next(s, events[0]).client.presented) {
        RepeatsExactly(Next(s, events[0]), kept', events[1..]);
      } else {
        RepeatsStay(Next(s, events[0]), kept', events[1..]);
      }
    }
  }

  /**
    Whatever the server, other callers and the order of events do, a tab presents some refresh token
    twice exactly when it starts a refresh after a lost one with its store neither replaced nor cleared.
   */
  lemma PresentedTwiceIff(events: seq<Event>)
    ensures !Distinct(RunOf(START, events).client.presented) <==> RetriesALostRefresh(START, false, events)
  {
    RepeatsExactly(START, false, events);
  }

  lemma {:induction false} NoLossNoRetry(s: System, events: seq<Event>)
    requires forall i :: 0 <= i < |events| ==> events[i] != Lose
    ensures !RetriesALostRefresh(s, false, events)
    decreases |events|
  {
    if events != [] {
      assert events[0] != Lose;
      NoLossNoRetry(Next(s, events[0]), events[1..]);
    }
  }

  /** When every refresh gets a response, any number of concurrent 401s present each token at most once. */
  lemma PresentedAtMostOnce(events: seq<Event>)
    requires forall i :: 0 <= i < |events| ==> events[i] != Lose
    ensures Distinct(RunOf(START, events).client.presented)
  {
    NoLossNoRetry(START, events);
    PresentedTwiceIff(events);
  }

  // ------------------------------------------------------------ the lost response

  /** An idle tab holding a live token. */
  ghost predicate SignedIn(s: System, now: Instant) {
    && Starts(s.client) && s.answer.None?
    && s.client.stored.value in s.world.store.rows
    && s.world.store.rows[s.client.stored.value].revokedAt.None?
    && s.world.store.rows[s.client.stored.value].expiresAt > now
    && (forall h :: h in s.world.store.rows ==> h < s.issued && s.world.store.rows[h].family in s.world.families)
  }

  lemma Unrolled(s: System, e: Event, rest: seq<Event>)
    ensures RunOf(s, [e] + rest) == RunOf(Next(s, e), rest)
  {
    assert ([e] + rest)[1..] == rest;
  }

  lemma ServedIsExchanged(s: System, now: Instant, expiry: Instant)
    requires SignedIn(s, now)
    ensures var s' := Next(Next(s, Unauthorized401), Serve(expiry, now));
            && s'.client == Unauthorized(s.client) && s'.answer == Some(Granted(s.issued)) && s'.replayed == s.replayed
            && s'.issued == s.issued + 1 && s'.world.families == s.world.families
            && s'.world.store == Consumed(s.world.store, s.client.stored.value, s.issued, expiry, now).0
            && Consumed(s.world.store, s.client.stored.value, s.issued, expiry, now).1.Issued?
  {
  }

  /** Presenting a spent token again ends its family and signs the tab out. */
  lemma SpentTokenEndsTheSession(s: System, token: Hash, expiry: Instant, now: Instant)
    requires s.client.stored == Some(token) && s.client.inFlight.None? && s.answer.None?
    requires token in s.world.store.rows && s.world.store.rows[token].revokedAt.Some?
    requires s.world.store.rows[token].family in s.world.families
    ensures var end := Next(Next(Next(s, Unauthorized401), Serve(expiry, now)), Deliver);
            end.replayed && end.client.stored.None? && Dead(end.world, s.world.store.rows[token].family)
  {
    var retried := Next(Next(s, Unauthorized401), Serve(expiry, now));
    assert retried.replayed && retried.answer == Some(Refused) && Dead(retried.world, s.world.store.rows[token].family);
  }

  lemma ThreeEvents(s: System, a: Event, b: Event, c: Event, more: seq<Event>)
    ensures RunOf(s, [a, b, c] + more) == RunOf(Next(Next(Next(s, a), b), c), more)
  {
    assert [a, b, c] + more == [a] + ([b] + ([c] + more));
    Unrolled(s, a, [b] + ([c] + more));
    Unrolled(Next(s, a), b, [c] + more);
    Unrolled(Next(Next(s, a), b), c, more);
  }

  /** A response lost after the server exchanged the token ends the session: the retry is taken for theft. */
  lemma LostResponseEndsTheSession(s: System, now: Instant, expiry: Instant, later: Instant, expiry': Instant)
    requires SignedIn(s, now)
    ensures var family := s.world.store.rows[s.client.stored.value].family;
            var end := RunOf(s,
              [Unauthorized401, Serve(expiry, now), Lose, Unauthorized401, Serve(expiry', later), Deliver]);
            end.replayed && end.client.stored.None? && Dead(end.world, family)
  {
    var token := s.client.stored.value;
    ServedIsExchanged(s, now, expiry);
    var lost := Next(Next(Next(s, Unauthorized401), Serve(expiry, now)), Lose);
    SpentTokenEndsTheSession(lost, token, expiry', later);
    var retry := [Unauthorized401, Serve(expiry', later), Deliver];
    ThreeEvents(s, Unauthorized401, Serve(expiry, now), Lose, retry);
    ThreeEvents(lost, Unauthorized401, Serve(expiry', later), Deliver, []);
    assert retry + [] == retry;
    assert [Unauthorized401, Serve(expiry, now), Lose] + retry ==
           [Unauthorized401, Serve(expiry, now), Lose, Unauthorized401, Serve(expiry', later), Deliver];
  }

  /** A request lost on the way out costs nothing: the retry gets a live token. */
  lemma LostRequestIsHarmless(s: System, now: Instant, expiry: Instant)
    requires SignedIn(s, now) && expiry > now
    ensures var end := RunOf(s, [Unauthorized401, Lose, Unauthorized401, Serve(expiry, now), Deliver]);
            SignedIn(end, now) && end.replayed == s.replayed && end.client.stored != s.client.stored
  {
    var lost := Next(Next(s, Unauthorized401), Lose);
    assert lost.client.stored == s.client.stored && lost.client.inFlight.None? && lost.world == s.world
      && lost.issued == s.issued;
    assert SignedIn(lost, now);
    ServedIsExchanged(lost, now, expiry);
    Unrolled(s, Unauthorized401, [Lose, Unauthorized401, Serve(expiry, now), Deliver]);
    Unrolled(Next(s, Unauthorized401), Lose, [Unauthorized401, Serve(expiry, now), Deliver]);
    Unrolled(lost, Unauthorized401, [Serve(expiry, now), Deliver]);
    Unrolled(Next(lost, Unauthorized401), Serve(expiry, now), [Deliver]);
    Unrolled(Next(Next(lost, Unauthorized401), Serve(expiry, now)), Deliver, []);
  }

  lemma FourEvents(s: System, a: Event, b: Event, c: Event, d: Event)
    ensures RunOf(s, [a, b, c, d]) == Next(Next(Next(Next(s, a), b), c), d)
  {
    assert [a, b, c, d] == [a, b, c] + ([d] + []);
    ThreeEvents(s, a, b, c, [d] + []);
    Unrolled(Next(Next(Next(s, a), b), c), d, []);
  }

  lemma TwoEvents(s: System, a: Event, b: Event)
    ensures RunOf(s, [a]) == Next(s, a) && RunOf(s, [a, b]) == Next(Next(s, a), b)
  {
    assert [a] == [a] + [] && [a, b] == [a] + ([b] + []);
    Unrolled(s, a, []);
    Unrolled(s, a, [b] + []);
    Unrolled(Next(s, a), b, []);
  }

  lemma {:induction false} RunAppend(s: System, before: seq<Event>, after: seq<Event>)
    ensures RunOf(s, before + after) == RunOf(RunOf(s, before), after)
    decreases |before|
  {
    if before == [] {
      assert before + after == after;
    } else {
      assert (before + after)[1..] == before[1..] + after;
      RunAppend(Next(s, before[0]), before[1..], after);
    }
  }

  /** A sign-in, and a refresh whose answer is lost. */
  const LOST := [SignIn(1, 100), Unauthorized401, Serve(200, 5), Lose]

  /** The next 401 presents the token a second time, and its refresh is taken for a theft. */
  lemma LostResponseRepeatsTheToken()
    ensures var retried := RunOf(START, LOST + [Unauthorized401]);
            retried.client.presented == [0, 0] && !Distinct(retried.client.presented)
    ensures RunOf(START, LOST + [Unauthorized401, Serve(200, 6)]).replayed
  {
    var lost := Next(Next(Next(Next(START, LOST[0]), LOST[1]), LOST[2]), LOST[3]);
    FourEvents(START, LOST[0], LOST[1], LOST[2], LOST[3]);
    assert LOST == [LOST[0], LOST[1], LOST[2], LOST[3]];
    RunAppend(START, LOST, [Unauthorized401]);
    RunAppend(START, LOST, [Unauthorized401, Serve(200, 6)]);
    TwoEvents(lost, Unauthorized401, Serve(200, 6));
    assert lost.world.store.rows[0].revokedAt == Some(5);
    var twice := Next(lost, Unauthorized401).client.presented;
    assert twice == [0, 0] && twice[0] == twice[1];
  }

  // ---------------------------------------------------------------------- tab

  class Tab {
    var stored: Option<Hash>
    var refreshInFlight: Option<Hash>
    ghost var presented: seq<Hash>

    ghost function View(): Client
      reads this
    {
      Client(stored, refreshInFlight, presented)
    }

    constructor ()
      ensures View() == START.client
    {
      stored, refreshInFlight, presented := None, None, [];
    }

    /** What a 401 does before anything is awaited: the token to send, or none when it joins a running refresh. */
    method TryRefresh() returns (sent: Option<Hash>)
      modifies this
      ensures View() == Unauthorized(old(View()))
      ensures sent == if Starts(old(View())) then old(stored) else None
      ensures stored == old(stored) && (stored.Some? ==> refreshInFlight.Some?)
    {
      sent := None;
      if stored.Some? {
        if refreshInFlight.None? {
          refreshInFlight := stored;
          sent := stored;
          presented := presented + [stored.value];
        }
      }
    }

    /** The continuation when a response arrives. */
    method Settle(response: Response)
      modifies this
      ensures View() == Answered(old(View()), response)
      ensures stored == (if response.Granted? then Some(response.token) else None) && refreshInFlight.None?
    {
      match response {
        case Granted(token) => stored := Some(token);
        case Refused => stored := None;
      }
      refreshInFlight := None;
    }

    /** Whatever happens in a run, the tab is the client of it. */
    method On(e: Event, ghost s: System, answer: Option<Response>, drawn: Hash)
      requires View() == s.client && answer == s.answer && drawn == s.issued
      modifies this
      ensures View() == Next(s, e).client
    {
      match e {
        case SignIn(_, _) => stored := Some(drawn);
        case Clear => stored := None;
        case Unauthorized401 =>
          var sent := TryRefresh();
        case Deliver =>
          if refreshInFlight.Some? && answer.Some? {
            Settle(answer.value);
          }
        case Lose => Fail();
        case _ =>
      }
    }

    /** The continuation when the request throws. */
    method Fail()
      modifies this
      ensures View() == Failed(old(View()))
    {
      refreshInFlight := None;
    }
  }
}
