/**
  The lock discipline of the coin transactions. Transactions take row locks one at a time
  and hold them to the end; a transaction that wants a held lock waits. No reachable state
  has transactions waiting on each other in a circle.
 */
module Locks {
  import opened Prelude

  type TxId = int

  datatype Lock = Wallet(user: int) | Purchase(id: int)

  /**
    `Coin(user, purchase)`: one coin operation locks its wallet, then possibly a purchase.
    `Fail(purchase)`: abandoning a purchase locks that row only.
    `Expiry`: the nightly write-off holds the wallets it has visited; it runs only under
    its advisory lock, which it tries for and never waits for.
   */
  datatype Kind = Coin(user: int, purchase: Option<int>) | Fail(failing: int) | Expiry

  datatype Tx = Tx(kind: Kind, held: set<Lock>, waitingFor: Option<Lock>)

  type State = map<TxId, Tx>

  // --------------------------------------------------------------- the steps

  /** The locks a transaction may ask for next, given what it holds. */
  predicate MayAsk(tx: Tx, lock: Lock) {
    match tx.kind
    case Coin(user, purchase) =>
      if Wallet(user) in tx.held then purchase.Some? && lock == Purchase(purchase.value) && lock !in tx.held
      else lock == Wallet(user)
    case Fail(purchase) => lock == Purchase(purchase) && lock !in tx.held
    case Expiry => lock.Wallet? && lock !in tx.held
  }

  predicate Free(s: State, lock: Lock) {
    forall t | t in s :: lock !in s[t].held
  }

  datatype Step =
    | Begin(t: TxId, kind: Kind)
    | Acquire(t: TxId, lock: Lock)
    | Wait(t: TxId, lock: Lock)
    | Finish(t: TxId)

  /** When a step may happen. A waiting transaction only ever acquires what it waits for. */
  predicate Enabled(s: State, step: Step) {
    match step
    case Begin(t, kind) => t !in s && (kind.Expiry? ==> forall o | o in s :: !s[o].kind.Expiry?)
    case Acquire(t, lock) =>
      t in s && Free(s, lock) &&
      (if s[t].waitingFor.Some? then s[t].waitingFor == Some(lock) else MayAsk(s[t], lock))
    case Wait(t, lock) => t in s && s[t].waitingFor.None? && MayAsk(s[t], lock) && !Free(s, lock)
    case Finish(t) => t in s && s[t].waitingFor.None?
  }

  function Next(s: State, step: Step): State
    requires Enabled(s, step)
  {
    match step
    case Begin(t, kind) => s[t := Tx(kind, {}, None)]
    case Acquire(t, lock) => s[t := s[t].(held := s[t].held + {lock}, waitingFor := None)]
    case Wait(t, lock) => s[t := s[t].(waitingFor := Some(lock))]
    case Finish(t) => map o | o in s && o != t :: s[o]
  }

  /** The state after a run of steps, or None if one of them was not enabled. */
  function Run(steps: seq<Step>): Option<State>
    decreases |steps|
  {
    if steps == [] then Some(map[])
    else
      match Run(steps[..|steps| - 1])
      case None => None
      case Some(s) => if Enabled(s, steps[|steps| - 1]) then Some(Next(s, steps[|steps| - 1])) else None
  }

  // ----------------------------------------------------------- the invariant

  predicate TxFits(tx: Tx) {
    && (match tx.kind
        case Coin(user, purchase) =>
          && (forall l | l in tx.held :: l == Wallet(user) || (purchase.Some? && l == Purchase(purchase.value)))
          && ((exists l | l in tx.held :: l.Purchase?) ==> Wallet(user) in tx.held)
        case Fail(purchase) => forall l | l in tx.held :: l == Purchase(purchase)
        case Expiry => forall l | l in tx.held :: l.Wallet?)
    && (tx.waitingFor.Some? ==> MayAsk(tx, tx.waitingFor.value))
  }

  ghost predicate Disciplined(s: State) {
    && (forall t :: t in s ==> TxFits(s[t]))
    && (forall t, o, l {:trigger l in s[t].held, l in s[o].held} ::
          t in s && o in s && t != o && l in s[t].held ==> l !in s[o].held)
    && (forall t, o {:trigger s[t].kind, s[o].kind} :: t in s && o in s && s[t].kind.Expiry? && s[o].kind.Expiry? ==>
         t == o)
  }

  lemma NextIsDisciplined(s: State, step: Step)
    requires Disciplined(s) && Enabled(s, step)
    ensures Disciplined(Next(s, step))
  {
  }

  lemma {:induction false} ReachableIsDisciplined(steps: seq<Step>)
    requires Run(steps).Some?
    ensures Disciplined(Run(steps).value)
    decreases |steps|
  {
    if steps != [] {
      var init, last := steps[..|steps| - 1], steps[|steps| - 1];
      ReachableIsDisciplined(init);
      NextIsDisciplined(Run(init).value, last);
    }
  }

  // ------------------------------------------------------------- no deadlock

  /** `t` waits for a lock that `o` holds. */
  predicate WaitsOn(s: State, t: TxId, o: TxId) {
    t in s && o in s && s[t].waitingFor.Some? && s[t].waitingFor.value in s[o].held
  }

  /**
    How far a waiting transaction is from the end of the lock order: whoever it waits on
    is strictly nearer, and someone not waiting is at zero.
   */
  function Distance(tx: Tx): nat {
    if tx.waitingFor.None? then 0
    else if tx.waitingFor.value.Purchase? && !tx.kind.Fail? then 1
    else if tx.kind.Expiry? then 2
    else 3
  }

  lemma WaitingShortensDistance(s: State, t: TxId, o: TxId)
    requires Disciplined(s) && WaitsOn(s, t, o)
    ensures Distance(s[o]) < Distance(s[t])
  {
    assert TxFits(s[t]) && TxFits(s[o]);
  }

  /** A ring of transactions, each waiting on the next and the last on the first. */
  ghost predicate Ring(s: State, ring: seq<TxId>) {
    && ring != []
    && (forall i :: 0 <= i < |ring| - 1 ==> WaitsOn(s, ring[i], ring[i + 1]))
    && WaitsOn(s, ring[|ring| - 1], ring[0])
  }

  lemma {:induction false} DistanceFallsAlong(s: State, chain: seq<TxId>)
    requires Disciplined(s) && chain != [] && forall i :: 0 <= i < |chain| ==> chain[i] in s
    requires forall i :: 0 <= i < |chain| - 1 ==> WaitsOn(s, chain[i], chain[i + 1])
    ensures Distance(s[chain[|chain| - 1]]) <= Distance(s[chain[0]])
  {
    if |chain| > 1 {
      var shorter := chain[..|chain| - 1];
      DistanceFallsAlong(s, shorter);
      WaitingShortensDistance(s, chain[|chain| - 2], chain[|chain| - 1]);
    }
  }

  /** No reachable state of any number of coin transactions, settlements and write-offs is deadlocked. */
  lemma NoDeadlock(steps: seq<Step>, ring: seq<TxId>)
    requires Run(steps).Some?
    ensures !Ring(Run(steps).value, ring)
  {
    var s := Run(steps).value;
    if Ring(s, ring) {
      ReachableIsDisciplined(steps);
      forall i | 0 <= i < |ring|
        ensures ring[i] in s
      {
        assert i < |ring| - 1 ==> WaitsOn(s, ring[i], ring[i + 1]);
      }
      DistanceFallsAlong(s, ring);
      WaitingShortensDistance(s, ring[|ring| - 1], ring[0]);
    }
  }

  /** Following the waits from any transaction ends at one that can move. */
  lemma SomeoneCanMove(s: State, steps: seq<Step>, t: TxId) returns (mover: TxId, step: Step)
    requires Run(steps) == Some(s) && t in s
    ensures mover in s && Enabled(s, step) && (step == Finish(mover) || (step.Acquire? && step.t == mover))
    decreases Distance(s[t])
  {
    ReachableIsDisciplined(steps);
    if s[t].waitingFor.None? {
      mover, step := t, Finish(t);
    } else if Free(s, s[t].waitingFor.value) {
      mover, step := t, Acquire(t, s[t].waitingFor.value);
    } else {
      var o :| o in s && s[t].waitingFor.value in s[o].held;
      WaitingShortensDistance(s, t, o);
      mover, step := SomeoneCanMove(s, steps, o);
    }
  }
}
