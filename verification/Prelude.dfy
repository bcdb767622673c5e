/** Small shared vocabulary: optional values, results, sums and machine integers. */
module Prelude {

  datatype Option<+T> = None | Some(value: T)

  datatype Result<+T, +E> = Ok(value: T) | Err(error: E)

  /** The sum of a sequence, peeled from the right so that appending is one unfolding. */
  function Sum(xs: seq<int>): int {
    if xs == [] then 0 else Sum(xs[..|xs| - 1]) + xs[|xs| - 1]
  }

  lemma {:induction false} SumAppend(xs: seq<int>, ys: seq<int>)
    ensures Sum(xs + ys) == Sum(xs) + Sum(ys)
  {
    if ys == [] {
      assert xs + ys == xs;
    } else {
      assert (xs + ys)[..|xs + ys| - 1] == xs + ys[..|ys| - 1];
      SumAppend(xs, ys[..|ys| - 1]);
    }
  }

  /** Changing one element moves the sum by the difference. */
  lemma {:induction false} SumUpdate(xs: seq<int>, i: nat, v: int)
    requires i < |xs|
    ensures Sum(xs[i := v]) == Sum(xs) - xs[i] + v
  {
    var last := |xs| - 1;
    if i == last {
      assert xs[i := v][..last] == xs[..last];
    } else {
      assert xs[i := v][..last] == xs[..last][i := v];
      SumUpdate(xs[..last], i, v);
    }
  }

  lemma {:induction false} SumMonotone(xs: seq<int>, ys: seq<int>)
    requires |xs| == |ys|
    requires forall i :: 0 <= i < |xs| ==> xs[i] <= ys[i]
    ensures Sum(xs) <= Sum(ys)
  {
    if xs != [] {
      SumMonotone(xs[..|xs| - 1], ys[..|ys| - 1]);
    }
  }

  lemma MulMonotone(a: int, b: int, c: int)
    requires a <= b && c >= 0
    ensures a * c <= b * c
  {
  }

  lemma MulCancel(a: int, b: int, c: int)
    requires c > 0 && a * c < b * c
    ensures a < b
  {
    if b <= a {
      MulMonotone(b, a, c);
    }
  }

  /** Integer division truncating toward zero, as Go's `/` does. */
  function TruncDiv(a: int, b: int): int
    requires b > 0
  {
    if a >= 0 then a / b else -((-a) / b)
  }

  /** The remainder that goes with `TruncDiv`: it has the sign of the dividend. */
  function TruncMod(a: int, b: int): int
    requires b > 0
  {
    a - TruncDiv(a, b) * b
  }

  const MAX_INT16 := 32767

  /** The wrap-around of a conversion to a 16-bit signed integer. */
  function ToInt16(x: int): (r: int)
    ensures -32768 <= r <= MAX_INT16
    ensures (r - x) % 0x1_0000 == 0
    ensures -32768 <= x <= MAX_INT16 ==> r == x
  {
    (x + 32768) % 0x1_0000 - 32768
  }

  /** No two positions hold the same element. */
  ghost predicate Distinct<T>(xs: seq<T>) {
    forall i, j :: 0 <= i < j < |xs| ==> xs[i] != xs[j]
  }

  /** The elements of a sequence, as a set. */
  function Elements<T>(xs: seq<T>): set<T> {
    set x | x in xs
  }

  /** A sequence has as many elements as positions exactly when nothing repeats. */
  lemma {:induction false} DistinctByCount<T>(xs: seq<T>)
    ensures |Elements(xs)| <= |xs|
    ensures |Elements(xs)| == |xs| <==> Distinct(xs)
  {
    if xs == [] {
      assert Elements(xs) == {};
    } else {
      var init, last := xs[..|xs| - 1], xs[|xs| - 1];
      DistinctByCount(init);
      assert xs == init + [last];
      assert Elements(xs) == Elements(init) + {last};
      if last in init {
        assert Elements(xs) == Elements(init);
        var i :| 0 <= i < |init| && init[i] == last;
        assert xs[i] == xs[|xs| - 1];
      } else {
        if Distinct(init) {
          assert Distinct(xs);
        }
        if Distinct(xs) {
          assert forall i, j :: 0 <= i < j < |init| ==> init[i] == xs[i] && init[j] == xs[j];
        }
      }
    }
  }

  /** A subset is no larger, and as large only when it is the whole. */
  lemma SubsetCardinality<T>(a: set<T>, b: set<T>)
    requires a <= b
    ensures |a| <= |b|
    ensures |a| == |b| ==> a == b
  {
    assert b == a + (b - a);
  }

  lemma Member<T>(s: set<T>) returns (x: T)
    requires |s| > 0
    ensures x in s
  {
    x :| x in s;
  }

  /** A number above all those in use. */
  lemma {:induction false} Unused(used: set<int>) returns (id: nat)
    ensures id !in used && forall x :: x in used ==> x < id
    decreases |used|
  {
    if |used| == 0 {
      id := 0;
      assert used == {};
    } else {
      var x := Member(used);
      var y := Unused(used - {x});
      id := if x < y then y else x + 1;
      assert forall z :: z in used ==> z == x || z in used - {x};
    }
  }

  /** Some element of a set, whichever. */
  method Any<T(==)>(s: set<T>) returns (x: T)
    requires s != {}
    ensures x in s
  {
    x :| x in s;
  }

  method LeastOf(ids: set<int>) returns (least: int)
    requires ids != {}
    ensures least in ids && forall x :: x in ids ==> least <= x
  {
    least := Any(ids);
    var others := ids - {least};
    while others != {}
      invariant others <= ids && least in ids
      invariant forall y :: y in ids && y !in others ==> least <= y
      decreases |others|
    {
      var y := Any(others);
      if y < least {
        least := y;
      }
      others := others - {y};
    }
  }
}
