/**
  Bundle pricing: a floored discount, allocated back over the chapters by the
  largest-remainder method.
 */
module Bundle {
  import opened Prelude
  import opened Coins

  const ARC_BUNDLE_DISCOUNT_PERCENT := 15

  // ---------------------------------------------------------------- functions

  function Floors(weights: seq<int>, total: int): (r: seq<int>)
    requires Sum(weights) > 0
  {
    seq(|weights|, i requires 0 <= i < |weights| => TruncDiv(weights[i] * total, Sum(weights)))
  }

  function Remainders(weights: seq<int>, total: int): (r: seq<int>)
    requires Sum(weights) > 0
  {
    seq(|weights|, i requires 0 <= i < |weights| => TruncMod(weights[i] * total, Sum(weights)))
  }

  /** The scan for the next coin: the first largest remainder above -1 among positions below their weight. */
  function Best(weights: seq<int>, out: seq<int>, rem: seq<int>, upTo: nat): (b: int)
    requires upTo <= |weights| == |out| == |rem|
    ensures -1 <= b < upTo
    ensures b >= 0 ==> out[b] < weights[b] && rem[b] > -1
    ensures forall i :: 0 <= i < upTo && out[i] < weights[i] && rem[i] > -1 ==>
              b >= 0 && rem[i] <= rem[b] && (rem[i] == rem[b] ==> b <= i)
  {
    if upTo == 0 then -1
    else
      var b := Best(weights, out, rem, upTo - 1);
      var i := upTo - 1;
      if out[i] < weights[i] && rem[i] > (if b < 0 then -1 else rem[b]) then i else b
  }

  /** Shares and remainders after `coins` leftover coins have been handed out; a served position has remainder -1. */
  function HandOut(weights: seq<int>, out: seq<int>, rem: seq<int>, coins: nat): (r: (seq<int>, seq<int>))
    requires |weights| == |out| == |rem|
    ensures |r.0| == |r.1| == |weights|
  {
    if coins == 0 then (out, rem)
    else
      var (out', rem') := HandOut(weights, out, rem, coins - 1);
      var b := Best(weights, out', rem', |weights|);
      if b < 0 then (out', rem') else (out'[b := out'[b] + 1], rem'[b := -1])
  }

  function LeftOver(floors: seq<int>, total: int): int {
    total - Sum(floors)
  }

  /** The shares of `total` over `weights`, for any input at all. */
  function Allocate(weights: seq<int>, total: int): (r: seq<int>)
    ensures |r| == |weights|
  {
    if total <= 0 || Sum(weights) <= 0 then seq(|weights|, _ => 0)
    else
      var floors := Floors(weights, total);
      var left := LeftOver(floors, total);
      if left <= 0 then floors else HandOut(weights, floors, Remainders(weights, total), left).0
  }

  // -------------------------------------------------- the largest-remainder law

  /** The amounts `QuoteBundle` splits: no negative price, and no more than their sum. */
  predicate Splittable(weights: seq<int>, total: int) {
    (forall i :: 0 <= i < |weights| ==> weights[i] >= 0) && 0 <= total <= Sum(weights)
  }

  /** Position i is rounded up before position j: larger remainder first, then lower index. */
  predicate Before(rem: seq<int>, i: nat, j: nat)
    requires i < |rem| && j < |rem|
  {
    rem[i] > rem[j] || (rem[i] == rem[j] && i < j)
  }

  /**
    What "largest remainder" means, without saying how to compute it: every share
    is its exact quota rounded down or up, the shares add up, and whoever is
    rounded up comes before whoever is not.
   */
  ghost predicate LargestRemainder(weights: seq<int>, total: int, shares: seq<int>)
    requires Sum(weights) > 0
  {
    RoundedByRank(Floors(weights, total), Remainders(weights, total), total, shares)
  }

  /** Shares that round these floors up by remainder until they add up. */
  ghost predicate RoundedByRank(floors: seq<int>, rem: seq<int>, total: int, shares: seq<int>) {
    && |shares| == |floors| == |rem|
    && Sum(shares) == total
    && (forall i :: 0 <= i < |shares| ==> floors[i] <= shares[i] <= floors[i] + 1)
    && (forall i, j :: 0 <= i < |shares| && 0 <= j < |shares| && shares[i] > floors[i] && shares[j] == floors[j]
          ==> Before(rem, i, j))
  }

  lemma DivideExactly(w: int, total: int, sum: int)
    requires w >= 0 && total >= 0 && sum > 0
    ensures w * total == TruncDiv(w * total, sum) * sum + TruncMod(w * total, sum)
    ensures 0 <= TruncMod(w * total, sum) < sum && TruncDiv(w * total, sum) >= 0
  {
    assert w * total >= 0;
  }

  /** A positive remainder leaves room below the weight for the coin that rounds it up. */
  lemma RoundedDownHasRoom(w: int, total: int, sum: int, floor: int, rem: int)
    requires w >= 0 && 0 <= total <= sum && sum > 0
    requires w * total == floor * sum + rem && 0 <= rem < sum
    ensures floor <= w && (rem > 0 ==> floor < w)
  {
    MulMonotone(total, sum, w);
    assert floor * sum + rem <= w * sum;
    assert (w + 1) * sum == w * sum + sum;
    MulCancel(floor, w + 1, sum);
    if rem > 0 {
      MulCancel(floor, w, sum);
    }
  }

  /** Floors and remainders add up to the whole. */
  lemma {:induction false} FloorsAddUp(weights: seq<int>, total: int, sum: int, floors: seq<int>, rem: seq<int>)
    requires |weights| == |floors| == |rem| && sum > 0
    requires forall i :: 0 <= i < |weights| ==> weights[i] * total == floors[i] * sum + rem[i]
    ensures Sum(weights) * total == Sum(floors) * sum + Sum(rem)
  {
    if weights != [] {
      var n := |weights| - 1;
      FloorsAddUp(weights[..n], total, sum, floors[..n], rem[..n]);
      assert Sum(weights) * total == Sum(weights[..n]) * total + weights[n] * total;
      assert Sum(floors) * sum == Sum(floors[..n]) * sum + floors[n] * sum;
    }
  }

  /** How many positions were rounded down. */
  function RoundedDown(rem: seq<int>): nat {
    if rem == [] then 0
    else RoundedDown(rem[..|rem| - 1]) + if rem[|rem| - 1] > 0 then 1 else 0
  }

  lemma {:induction false} RoundedDownUpdate(rem: seq<int>, i: nat)
    requires i < |rem| && rem[i] > 0
    ensures RoundedDown(rem[i := -1]) == RoundedDown(rem) - 1
  {
    var last := |rem| - 1;
    if i == last {
      assert rem[i := -1][..last] == rem[..last];
    } else {
      assert rem[i := -1][..last] == rem[..last][i := -1];
      RoundedDownUpdate(rem[..last], i);
    }
  }

  lemma {:induction false} SomeRoundedDown(rem: seq<int>) returns (i: nat)
    requires RoundedDown(rem) > 0
    ensures i < |rem| && rem[i] > 0
  {
    if rem[|rem| - 1] > 0 {
      i := |rem| - 1;
    } else {
      i := SomeRoundedDown(rem[..|rem| - 1]);
    }
  }

  /** Remainders below `sum` add up to less than `sum` for each position rounded down. */
  lemma {:induction false} RemaindersBounded(rem: seq<int>, sum: int)
    requires sum > 0 && forall i :: 0 <= i < |rem| ==> 0 <= rem[i] < sum
    ensures 0 <= Sum(rem) <= RoundedDown(rem) * (sum - 1)
  {
    if rem != [] {
      var n := |rem| - 1;
      RemaindersBounded(rem[..n], sum);
      var m := if rem[n] > 0 then 1 else 0;
      assert (RoundedDown(rem[..n]) + m) * (sum - 1) == RoundedDown(rem[..n]) * (sum - 1) + m * (sum - 1);
    }
  }

  /** The floor pass: quotas rounded down, with what the rounding left over. */
  ghost predicate FloorPass(weights: seq<int>, total: int, floors: seq<int>, rem: seq<int>) {
    && |floors| == |rem| == |weights|
    && (forall i :: 0 <= i < |weights| ==> 0 <= rem[i] < Sum(weights))
    && (forall i :: 0 <= i < |weights| ==> floors[i] <= weights[i] && (rem[i] > 0 ==> floors[i] < weights[i]))
    && Sum(floors) <= total
    && (Sum(floors) < total ==> total - Sum(floors) < RoundedDown(rem))
  }

  lemma FloorPassFacts(weights: seq<int>, total: int)
    requires Sum(weights) > 0 && Splittable(weights, total)
    ensures FloorPass(weights, total, Floors(weights, total), Remainders(weights, total))
  {
    var sum := Sum(weights);
    var floors, rem := Floors(weights, total), Remainders(weights, total);
    forall i | 0 <= i < |weights|
      ensures weights[i] * total == floors[i] * sum + rem[i] && 0 <= rem[i] < sum
      ensures floors[i] <= weights[i] && (rem[i] > 0 ==> floors[i] < weights[i])
    {
      DivideExactly(weights[i], total, sum);
      RoundedDownHasRoom(weights[i], total, sum, floors[i], rem[i]);
    }
    FloorsAddUp(weights, total, sum, floors, rem);
    RemaindersBounded(rem, sum);
    FloorsFit(total, sum, Sum(floors), Sum(rem), RoundedDown(rem));
  }

  lemma FloorsFit(total: int, sum: int, floors: int, rem: int, marks: int)
    requires sum > 0 && rem >= 0 && sum * total == floors * sum + rem
    requires rem <= marks * (sum - 1) && marks >= 0
    ensures floors <= total && (floors < total ==> total - floors < marks)
  {
    assert (total + 1) * sum == total * sum + sum;
    MulCancel(floors, total + 1, sum);
    if floors < total {
      assert rem == (total - floors) * sum;
      MulMonotone(1, total - floors, sum);
      if marks == 0 {
        assert false;
      }
      assert marks * (sum - 1) == marks * sum - marks;
      MulCancel(total - floors, marks, sum);
    }
  }

  lemma {:induction false} SumOfZeros(n: nat)
    ensures Sum(seq(n, _ => 0)) == 0
  {
    if n > 0 {
      assert seq(n, _ => 0)[..n - 1] == seq(n - 1, _ => 0);
      SumOfZeros(n - 1);
    }
  }

  /** Where the hand-out stands after `given` coins; a position already served has remainder -1. */
  ghost predicate HandingOut(weights: seq<int>, floors: seq<int>, rem0: seq<int>, out: seq<int>, rem: seq<int>,
        given: nat) {
    && |out| == |rem| == |weights| == |floors| == |rem0|
    && Sum(out) == Sum(floors) + given
    && RoundedDown(rem) == RoundedDown(rem0) - given
    && (forall i :: 0 <= i < |rem| ==>
          (rem[i] == rem0[i] && out[i] == floors[i]) || (rem[i] == -1 && out[i] == floors[i] + 1))
    && (forall i, j {:trigger Before(rem0, i, j)} ::
          0 <= i < |rem| && 0 <= j < |rem| && rem[i] == -1 && rem[j] != -1 ==> Before(rem0, i, j))
  }

  /** While coins are left, the scan finds a position: the `best < 0` exit is never taken. */
  lemma BestExists(weights: seq<int>, total: int, floors: seq<int>, rem0: seq<int>, out: seq<int>, rem: seq<int>,
        given: nat)
    requires FloorPass(weights, total, floors, rem0)
    requires HandingOut(weights, floors, rem0, out, rem, given)
    requires given < total - Sum(floors)
    ensures var b := Best(weights, out, rem, |weights|);
            && b >= 0
            && 0 < rem[b] == rem0[b] && out[b] == floors[b]
            && forall j :: 0 <= j < |rem| && rem[j] != -1 && j != b ==> Before(rem0, b, j)
  {
    var k := SomeRoundedDown(rem);
    assert rem[k] > 0 && out[k] < weights[k];
  }

  lemma GiveOne(weights: seq<int>, total: int, floors: seq<int>, rem0: seq<int>, out: seq<int>, rem: seq<int>,
        given: nat)
    requires FloorPass(weights, total, floors, rem0)
    requires HandingOut(weights, floors, rem0, out, rem, given)
    requires given < total - Sum(floors)
    ensures var b := Best(weights, out, rem, |weights|);
            b >= 0 && HandingOut(weights, floors, rem0, out[b := out[b] + 1], rem[b := -1], given + 1)
  {
    BestExists(weights, total, floors, rem0, out, rem, given);
    var b := Best(weights, out, rem, |weights|);
    SumUpdate(out, b, out[b] + 1);
    RoundedDownUpdate(rem, b);
  }

  lemma {:induction false} HandOutKeeps(weights: seq<int>, total: int, floors: seq<int>, rem0: seq<int>, coins: nat)
    requires FloorPass(weights, total, floors, rem0)
    requires coins <= total - Sum(floors)
    ensures var (out, rem) := HandOut(weights, floors, rem0, coins);
            HandingOut(weights, floors, rem0, out, rem, coins)
  {
    if coins > 0 {
      var given := coins - 1;
      HandOutKeeps(weights, total, floors, rem0, given);
      var (out, rem) := HandOut(weights, floors, rem0, given);
      GiveOne(weights, total, floors, rem0, out, rem, given);
      HandOutStep(weights, floors, rem0, out, rem, given);
    }
  }

  /** When the last coin is handed out, the shares satisfy the law. */
  lemma HandOutIsRounded(weights: seq<int>, total: int, floors: seq<int>, rem0: seq<int>, left: int)
    requires FloorPass(weights, total, floors, rem0) && left == total - Sum(floors)
    ensures RoundedByRank(floors, rem0, total, HandOut(weights, floors, rem0, left).0)
  {
    HandOutKeeps(weights, total, floors, rem0, left);
    var (out, rem) := HandOut(weights, floors, rem0, left);
    forall i, j | 0 <= i < |out| && 0 <= j < |out| && out[i] > floors[i] && out[j] == floors[j]
      ensures Before(rem0, i, j)
    {
      assert rem[i] == -1 && rem[j] == rem0[j] && rem0[j] >= 0;
    }
  }

  /** Splitting an amount no larger than the weights is exactly the largest-remainder rule. */
  lemma AllocateIsLargestRemainder(weights: seq<int>, total: int)
    requires Sum(weights) > 0 && Splittable(weights, total)
    ensures LargestRemainder(weights, total, Allocate(weights, total))
  {
    var floors, rem := Floors(weights, total), Remainders(weights, total);
    FloorPassFacts(weights, total);
    if total == 0 {
      ZeroFloors(weights);
    } else {
      HandOutIsRounded(weights, total, floors, rem, LeftOver(floors, total));
    }
  }

  lemma ZeroFloors(weights: seq<int>)
    requires Sum(weights) > 0
    ensures Floors(weights, 0) == Allocate(weights, 0) && Sum(Allocate(weights, 0)) == 0
  {
    assert forall i :: 0 <= i < |weights| ==> weights[i] * 0 == 0;
    SumOfZeros(|weights|);
  }

  lemma {:induction false} SmallerSum(a: seq<int>, b: seq<int>)
    requires |a| == |b| && a != b
    requires forall i :: 0 <= i < |a| ==> a[i] <= b[i]
    ensures Sum(a) < Sum(b)
  {
    var n := |a| - 1;
    if a[..n] == b[..n] {
      assert a == a[..n] + [a[n]] && b == b[..n] + [b[n]];
    } else {
      SmallerSum(a[..n], b[..n]);
    }
  }

  lemma NoExchange(floors: seq<int>, rem: seq<int>, total: int, a: seq<int>, b: seq<int>, i: nat, j: nat)
    requires i < |floors| && j < |floors|
    requires RoundedByRank(floors, rem, total, a) && RoundedByRank(floors, rem, total, b)
    ensures a[i] > b[i] ==> b[j] <= a[j]
  {
  }

  /** The law leaves no freedom: at most one list of shares satisfies it. */
  lemma LargestRemainderIsUnique(weights: seq<int>, total: int, a: seq<int>, b: seq<int>)
    requires Sum(weights) > 0
    requires LargestRemainder(weights, total, a) && LargestRemainder(weights, total, b)
    ensures a == b
  {
    forall i, j | 0 <= i < |a| && 0 <= j < |a|
      ensures a[i] > b[i] ==> b[j] <= a[j]
    {
      NoExchange(Floors(weights, total), Remainders(weights, total), total, a, b, i, j);
    }
    OneSidedIsEqual(a, b);
  }

  lemma OneSidedIsEqual(a: seq<int>, b: seq<int>)
    requires |a| == |b| && Sum(a) == Sum(b)
    requires forall i, j :: 0 <= i < |a| && 0 <= j < |a| && a[i] > b[i] ==> b[j] <= a[j]
    ensures a == b
  {
    if a != b {
      if forall i :: 0 <= i < |a| ==> a[i] <= b[i] {
        SmallerSum(a, b);
      } else {
        SmallerSum(b, a);
      }
    }
  }

  // ------------------------------------------------------------ consequences

  /** A chapter is never charged above its list price, nor below zero, and the shares are the total. */
  lemma SharesFitThePrices(weights: seq<int>, total: int)
    requires Splittable(weights, total)
    ensures Sum(Allocate(weights, total)) == total
    ensures forall i :: 0 <= i < |weights| ==> 0 <= Allocate(weights, total)[i] <= weights[i]
  {
    var shares := Allocate(weights, total);
    if Sum(weights) == 0 {
      SumOfZeros(|weights|);
    } else {
      AllocateIsLargestRemainder(weights, total);
      FloorPassFacts(weights, total);
      var floors, rem := Floors(weights, total), Remainders(weights, total);
      forall i | 0 <= i < |weights|
        ensures 0 <= shares[i] <= weights[i]
      {
        DivideExactly(weights[i], total, Sum(weights));
        NoFreeRounding(weights, total, shares, i);
      }
    }
  }

  /** Only positions that were rounded down are ever rounded up. */
  lemma NoFreeRounding(weights: seq<int>, total: int, shares: seq<int>, i: nat)
    requires Sum(weights) > 0 && Splittable(weights, total) && i < |weights|
    requires LargestRemainder(weights, total, shares)
    ensures Remainders(weights, total)[i] == 0 ==> shares[i] == Floors(weights, total)[i]
  {
    var floors, rem := Floors(weights, total), Remainders(weights, total);
    FloorPassFacts(weights, total);
    if rem[i] == 0 && shares[i] > floors[i] {
      // Everyone rounded down comes before i, so everyone rounded down was rounded up.
      assert forall j :: 0 <= j < |rem| && rem[j] > 0 ==> shares[j] == floors[j] + 1 by {
        forall j | 0 <= j < |rem| && rem[j] > 0
          ensures shares[j] == floors[j] + 1
        {
          assert shares[j] == floors[j] ==> Before(rem, i, j);
        }
      }
      RoundingEveryoneCosts(floors, rem, shares);
      RoundedUpMakesMore(floors, shares, i);
    }
  }

  lemma RoundedUpMakesMore(floors: seq<int>, shares: seq<int>, i: nat)
    requires |floors| == |shares| && i < |floors| && shares[i] > floors[i]
    requires forall j :: 0 <= j < |floors| ==> floors[j] <= shares[j]
    ensures Sum(floors) < Sum(shares)
  {
    SmallerSum(floors, shares);
  }

  lemma {:induction false} RoundingEveryoneCosts(floors: seq<int>, rem: seq<int>, shares: seq<int>)
    requires |floors| == |rem| == |shares|
    requires forall j :: 0 <= j < |rem| ==> floors[j] <= shares[j]
    requires forall j :: 0 <= j < |rem| && rem[j] > 0 ==> shares[j] == floors[j] + 1
    ensures Sum(shares) >= Sum(floors) + RoundedDown(rem)
  {
    if rem != [] {
      var n := |rem| - 1;
      RoundingEveryoneCosts(floors[..n], rem[..n], shares[..n]);
    }
  }

  lemma QuotientOrder(a: int, b: int, total: int, sum: int)
    requires 0 <= a <= b && total >= 0 && sum > 0
    ensures TruncDiv(a * total, sum) <= TruncDiv(b * total, sum)
    ensures TruncDiv(a * total, sum) == TruncDiv(b * total, sum) ==>
              TruncMod(a * total, sum) <= TruncMod(b * total, sum)
  {
    MulMonotone(a, b, total);
    DivideExactly(a, total, sum);
    DivideExactly(b, total, sum);
    var p, q := TruncDiv(a * total, sum), TruncDiv(b * total, sum);
    assert p * sum <= q * sum + TruncMod(b * total, sum);
    assert (q + 1) * sum == q * sum + sum;
    MulCancel(p, q + 1, sum);
  }

  lemma StrictQuotientOrder(a: int, b: int, total: int, sum: int)
    requires 0 <= a < b && total > 0 && sum > 0
    requires TruncDiv(a * total, sum) == TruncDiv(b * total, sum)
    ensures TruncMod(a * total, sum) < TruncMod(b * total, sum)
  {
    DivideExactly(a, total, sum);
    DivideExactly(b, total, sum);
    assert b * total == a * total + (b - a) * total;
    MulMonotone(1, b - a, total);
  }

  lemma EarlierGetsMore(floors: seq<int>, rem: seq<int>, shares: seq<int>, i: nat, j: nat)
    requires |floors| == |rem| == |shares| && i < |rem| && j < |rem|
    requires floors[i] > floors[j] || (floors[i] == floors[j] && Before(rem, i, j))
    requires forall k :: 0 <= k < |shares| ==> floors[k] <= shares[k] <= floors[k] + 1
    requires shares[j] > floors[j] && shares[i] == floors[i] ==> Before(rem, j, i)
    ensures shares[i] >= shares[j]
  {
  }

  /** A dearer chapter never gets the smaller share; between equal prices the earlier one is favoured. */
  lemma DearerChaptersGetMore(weights: seq<int>, total: int, i: nat, j: nat)
    requires Splittable(weights, total) && i < |weights| && j < |weights|
    requires weights[i] > weights[j] || (weights[i] == weights[j] && i < j)
    ensures Allocate(weights, total)[i] >= Allocate(weights, total)[j]
  {
    if Sum(weights) > 0 {
      AllocateIsLargestRemainder(weights, total);
      QuotientOrder(weights[j], weights[i], total, Sum(weights));
      var floors, rem := Floors(weights, total), Remainders(weights, total);
      if weights[i] > weights[j] && total > 0 && floors[i] == floors[j] {
        StrictQuotientOrder(weights[j], weights[i], total, Sum(weights));
      }
      if total > 0 {
        EarlierGetsMore(floors, rem, Allocate(weights, total), i, j);
      }
    }
  }

  /**
    The postconditions the code documents — the shares add up to the total and none
    exceeds its weight — hold for exactly the totals between zero and the sum of the
    weights; outside that range they fail.
   */
  lemma DocumentedPostconditionsHoldIff(weights: seq<int>, total: int)
    requires forall i :: 0 <= i < |weights| ==> weights[i] >= 0
    ensures (Sum(Allocate(weights, total)) == total
             && forall i :: 0 <= i < |weights| ==> Allocate(weights, total)[i] <= weights[i])
            <==> 0 <= total <= Sum(weights)
  {
    if 0 <= total <= Sum(weights) {
      SharesFitThePrices(weights, total);
    } else if total < 0 {
      SumOfZeros(|weights|);
    } else if forall i :: 0 <= i < |weights| ==> Allocate(weights, total)[i] <= weights[i] {
      SumMonotone(Allocate(weights, total), weights);
    }
  }

  /** One chapter at one coin, asked to carry five: it is given all five. */
  lemma OversizedTotalBreaksThePriceCap()
    ensures Allocate([1], 5) == [5]
  {
    assert Sum([1]) == 1;
    assert Floors([1], 5) == [5];
  }

  // ----------------------------------------------------------------- quoting

  datatype BundleQuote = BundleQuote(gross: int, discountPercent: int, discount: int, total: int, perChapter: seq<int>)

  function Clamp(percent: int): int {
    if percent < 0 then 0 else if percent > 100 then 100 else percent
  }

  function Quote(prices: seq<int>, discountPercent: int): (r: Result<BundleQuote, Error>) {
    if prices == [] then Err(ArcAlreadyOwned)
    else if exists i :: 0 <= i < |prices| && prices[i] < 0 then Err(InvalidAmount)
    else if Sum(prices) <= 0 then Err(ArcNotForSale)
    else
      var gross, percent := Sum(prices), Clamp(discountPercent);
      var discount := TruncDiv(gross * percent, 100);
      Ok(BundleQuote(gross, percent, discount, gross - discount, Allocate(prices, gross - discount)))
  }

  /**
    A quote charges the exact discounted price rounded up to a whole coin, split so
    that the parts are the total and no part exceeds its list price.
   */
  lemma QuoteIsExact(prices: seq<int>, discountPercent: int)
    requires Quote(prices, discountPercent).Ok?
    ensures var q := Quote(prices, discountPercent).value;
            && (0 <= discountPercent <= 100 ==> q.discountPercent == discountPercent)
            && (discountPercent < 0 ==> q.discountPercent == 0) && (discountPercent > 100 ==> q.discountPercent == 100)
            && q.gross == Sum(prices) == q.total + q.discount
            && q.gross * (100 - q.discountPercent) <= q.total * 100 < q.gross * (100 - q.discountPercent) + 100
            && Splittable(prices, q.total)
            && Sum(q.perChapter) == q.total
            && |q.perChapter| == |prices|
            && (forall i :: 0 <= i < |prices| ==> 0 <= q.perChapter[i] <= prices[i])
            && (discountPercent < 100 ==> q.total > 0)
  {
    var q := Quote(prices, discountPercent).value;
    assert q.gross * (100 - q.discountPercent) == q.gross * 100 - q.gross * q.discountPercent;
    MulMonotone(0, q.discountPercent, q.gross);
    MulMonotone(q.discountPercent, 100, q.gross);
    if discountPercent < 100 {
      MulMonotone(q.discountPercent, 99, q.gross);
    }
    SharesFitThePrices(prices, q.total);
  }

  /** What is refused: no chapters, a price below zero, or nothing but free chapters. */
  lemma {:induction false} QuoteIsRefusedIff(prices: seq<int>, discountPercent: int)
    ensures var r := Quote(prices, discountPercent);
            && (r == Err(ArcAlreadyOwned) <==> prices == [])
            && (r == Err(InvalidAmount) <==> exists i :: 0 <= i < |prices| && prices[i] < 0)
            && (r == Err(ArcNotForSale) <==> prices != [] && forall i :: 0 <= i < |prices| ==> prices[i] == 0)
            && (r.Ok? <==> (exists i :: 0 <= i < |prices| && prices[i] > 0)
                           && forall i :: 0 <= i < |prices| ==> prices[i] >= 0)
  {
    if forall i :: 0 <= i < |prices| ==> prices[i] >= 0 {
      SumIsPositiveIff(prices);
    }
  }

  lemma {:induction false} SumIsPositiveIff(prices: seq<int>)
    requires forall i :: 0 <= i < |prices| ==> prices[i] >= 0
    ensures Sum(prices) >= 0
    ensures Sum(prices) > 0 <==> exists i :: 0 <= i < |prices| && prices[i] > 0
  {
    if prices != [] {
      var n := |prices| - 1;
      SumIsPositiveIff(prices[..n]);
      if i :| 0 <= i < n && prices[i] > 0 {
        assert prices[..n][i] > 0;
      }
    }
  }

  // ------------------------------------------------------------- the algorithm

  lemma HandOutStep(weights: seq<int>, floors: seq<int>, rem0: seq<int>, out: seq<int>, rem: seq<int>, k: nat)
    requires |weights| == |floors| == |rem0| && (out, rem) == HandOut(weights, floors, rem0, k)
    ensures var b := Best(weights, out, rem, |weights|);
            b >= 0 ==> HandOut(weights, floors, rem0, k + 1) == (out[b := out[b] + 1], rem[b := -1])
  {
  }

  lemma {:induction false} HandOutStuck(weights: seq<int>, out: seq<int>, rem: seq<int>, k: nat, n: nat)
    requires |weights| == |out| == |rem| && k <= n
    requires var (o, r) := HandOut(weights, out, rem, k); Best(weights, o, r, |weights|) < 0
    ensures HandOut(weights, out, rem, n) == HandOut(weights, out, rem, k)
  {
    if k < n {
      HandOutStuck(weights, out, rem, k, n - 1);
    }
  }

  /** The floor pass, remembering each remainder. */
  method FloorInto(weights: array<int>, total: int, sum: int, out: array<int>, remainders: array<int>)
    returns (allotted: int)
    requires sum == Sum(weights[..]) > 0
    requires out.Length == remainders.Length == weights.Length
    requires weights != out && weights != remainders && out != remainders
    modifies out, remainders
    ensures out[..] == Floors(weights[..], total) && remainders[..] == Remainders(weights[..], total)
    ensures allotted == Sum(out[..])
  {
    ghost var w := weights[..];
    ghost var floors, rem := Floors(w, total), Remainders(w, total);
    allotted := 0;
    for i := 0 to weights.Length
      invariant weights[..] == w
      invariant forall k :: 0 <= k < i ==> out[k] == floors[k] && remainders[k] == rem[k]
      invariant allotted == Sum(floors[..i])
    {
      var scaled := weights[i] * total;
      out[i] := TruncDiv(scaled, sum);
      remainders[i] := TruncMod(scaled, sum);
      assert floors[..i + 1][..i] == floors[..i];
      allotted := allotted + out[i];
    }
    assert out[..] == floors && remainders[..] == rem;
    assert floors[..weights.Length] == floors;
  }

  /** The scan for the largest remainder not yet rounded up. */
  method FindBest(weights: array<int>, out: array<int>, remainders: array<int>) returns (best: int)
    requires out.Length == remainders.Length == weights.Length
    ensures best == Best(weights[..], out[..], remainders[..], weights.Length)
  {
    ghost var w, o, r := weights[..], out[..], remainders[..];
    var bestRem := -1;
    best := -1;
    for i := 0 to weights.Length
      invariant best == Best(w, o, r, i)
      invariant bestRem == if best < 0 then -1 else r[best]
    {
      if out[i] < weights[i] && remainders[i] > bestRem {
        best, bestRem := i, remainders[i];
      }
    }
  }

  /** One coin to the largest remainder, which is then spent; nothing when none is left. */
  method ServeBest(weights: array<int>, out: array<int>, remainders: array<int>) returns (best: int)
    requires out.Length == remainders.Length == weights.Length
    requires weights != out && weights != remainders && out != remainders
    modifies out, remainders
    ensures best == Best(weights[..], old(out[..]), old(remainders[..]), weights.Length)
    ensures best < 0 ==> out[..] == old(out[..])
    ensures best >= 0 ==> out[..] == old(out[..])[best := old(out[best]) + 1]
                          && remainders[..] == old(remainders[..])[best := -1]
  {
    best := FindBest(weights, out, remainders);
    if best >= 0 {
      out[best] := out[best] + 1;
      remainders[best] := -1;
    }
  }

  /** One round of the hand-out: `k` coins have been handed out, and then `next == k + 1`, unless none can be. */
  method Round(weights: array<int>, out: array<int>, remainders: array<int>, ghost floors: seq<int>,
        ghost rem: seq<int>, ghost k: nat, ghost next: nat) returns (served: bool)
    requires out.Length == remainders.Length == weights.Length == |floors| == |rem| && next == k + 1
    requires weights != out && weights != remainders && out != remainders
    requires (out[..], remainders[..]) == HandOut(weights[..], floors, rem, k)
    modifies out, remainders
    ensures served ==> (out[..], remainders[..]) == HandOut(weights[..], floors, rem, next)
    ensures !served ==> out[..] == old(out[..]) && Best(weights[..], old(out[..]), old(remainders[..]), |floors|) < 0
  {
    ghost var o, r := out[..], remainders[..];
    var best := ServeBest(weights, out, remainders);
    HandOutStep(weights[..], floors, rem, o, r, k);
    served := best >= 0;
  }

  /** The hand-out loop, with its early exit. */
  method HandOutInto(weights: array<int>, out: array<int>, remainders: array<int>, leftover: int)
    requires out.Length == remainders.Length == weights.Length
    requires weights != out && weights != remainders && out != remainders
    modifies out, remainders
    ensures leftover <= 0 ==> out[..] == old(out[..])
    ensures leftover > 0 ==> out[..] == HandOut(weights[..], old(out[..]), old(remainders[..]), leftover).0
  {
    ghost var w, floors, rem := weights[..], out[..], remainders[..];
    var given := 0;
    while given < leftover
      invariant 0 <= given && (given == 0 || given <= leftover)
      invariant (out[..], remainders[..]) == HandOut(w, floors, rem, given)
    {
      var served := Round(weights, out, remainders, floors, rem, given, given + 1);
      if !served {
        HandOutStuck(w, floors, rem, given, leftover);
        break;
      }
      given := given + 1;
    }
  }

  method Total(xs: array<int>) returns (sum: int)
    ensures sum == Sum(xs[..])
  {
    sum := 0;
    for i := 0 to xs.Length
      invariant sum == Sum(xs[..i])
    {
      assert xs[..i + 1][..i] == xs[..i];
      sum := sum + xs[i];
    }
    assert xs[..xs.Length] == xs[..];
  }

  /** The allocator as written: a floor pass, then one scan for each leftover coin. */
  method AllocateProportional(weights: array<int>, total: int) returns (out: array<int>)
    ensures fresh(out)
    ensures out[..] == Allocate(weights[..], total)
  {
    out := new int[weights.Length](_ => 0);
    if weights.Length == 0 || total <= 0 {
      return;
    }
    var sum := Total(weights);
    if sum <= 0 {
      return;
    }
    var remainders := new int[weights.Length](_ => 0);
    var allotted := FloorInto(weights, total, sum, out, remainders);
    HandOutInto(weights, out, remainders, total - allotted);
  }

  /** Pricing a set of chapters bought together. */
  method QuoteBundle(prices: array<int>, discountPercent: int) returns (quote: Result<BundleQuote, Error>)
    ensures quote == Quote(prices[..], discountPercent)
  {
    ghost var p := prices[..];
    if prices.Length == 0 {
      return Err(ArcAlreadyOwned);
    }
    var gross := 0;
    for i := 0 to prices.Length
      invariant gross == Sum(p[..i])
      invariant forall j :: 0 <= j < i ==> p[j] >= 0
    {
      if prices[i] < 0 {
        assert p[i] < 0;
        return Err(InvalidAmount);
      }
      assert p[..i + 1][..i] == p[..i];
      gross := gross + prices[i];
    }
    assert p[..prices.Length] == p;
    if gross <= 0 {
      return Err(ArcNotForSale);
    }
    var percent := discountPercent;
    if percent < 0 {
      percent := 0;
    }
    if percent > 100 {
      percent := 100;
    }
    var discount := TruncDiv(gross * percent, 100);
    var shares := AllocateProportional(prices, gross - discount);
    quote := Ok(BundleQuote(gross, percent, discount, gross - discount, shares[..]));
  }
}
