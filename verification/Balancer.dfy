/**
  The load balancers. Instances are told apart by their position in the list.
  The random draw is an input.
*/
module Balancer {
  import opened Basics
  import opened Counting

  datatype Instance = Instance(serviceName: string, instanceID: string, addr: string, weight: int)

  datatype Pick = NoInstances | Panics | Picked(position: nat, instance: Instance)

  // ----- round robin

  /** The position picked for a counter value, and the counter that the k-th next pick sees. */
  function PositionAt(counter: nat, n: nat): nat
    requires n > 0
  {
    counter % n
  }

  function CounterAfter(counter: nat, k: nat): nat {
    (counter + k) % TWO_64
  }

  class RoundRobinBalancer {
    var counter: nat  // a 64-bit unsigned counter

    ghost predicate Valid()
      reads this
    {
      counter < TWO_64
    }

    constructor ()
      ensures Valid() && counter == 0
    {
      counter := 0;
    }

    /** The atomic add wraps around; the index is taken from the value before it. */
    method Pick(instances: seq<Instance>) returns (r: Pick)
      requires Valid()
      modifies this
      ensures Valid()
      ensures instances == [] ==> r == NoInstances && counter == old(counter)
      ensures instances != [] ==>
                counter == CounterAfter(old(counter), 1) &&
                r == Picked(PositionAt(old(counter), |instances|), instances[PositionAt(old(counter), |instances|)])
    {
      if |instances| == 0 {
        return NoInstances;
      }
      counter := (counter + 1) % TWO_64;
      var idx := (counter + TWO_64 - 1) % TWO_64;
      r := Picked(idx % |instances|, instances[idx % |instances|]);
    }
  }

  /** How often m picks in a row, the first with the given counter value, select a position. */
  function PickCount(counter: nat, m: nat, n: nat, position: nat): nat
    requires n > 0
  {
    if m == 0 then 0
    else
      PickCount(counter, m - 1, n, position) +
      (if PositionAt(CounterAfter(counter, m - 1), n) == position then 1 else 0)
  }

  /** The same without the wrap of the counter. */
  function FreeCount(counter: nat, m: nat, n: nat, position: nat): nat
    requires n > 0
  {
    if m == 0 then 0
    else FreeCount(counter, m - 1, n, position) + (if (counter + m - 1) % n == position then 1 else 0)
  }

  /** Every window of picks treats all positions alike, up to one pick. */
  ghost predicate Balanced(counter: nat, m: nat, n: nat)
    requires n > 0
  {
    forall p, q | 0 <= p < n && 0 <= q < n :: PickCount(counter, m, n, p) <= PickCount(counter, m, n, q) + 1
  }

  lemma ModSmall(x: nat, n: nat)
    requires n > 0 && x < n
    ensures x % n == x
  {
  }

  lemma ModAddMultiple(x: nat, k: nat, n: nat)
    requires n > 0
    ensures (x + k * n) % n == x % n
  {
    assert x + k * n == n * (x / n + k) + x % n;
    DivModUnique(x + k * n, n, x / n + k, x % n);
  }

  lemma MulAtLeast(n: int, d: int)
    requires n > 0
    ensures d >= 1 ==> n * d >= n
    ensures d <= -1 ==> n * d <= -n
  {
  }

  lemma Distribute(n: int, a: int, b: int)
    ensures n * (a + b) == n * a + n * b
    ensures n * (a - b) == n * a - n * b
  {
  }

  lemma DivModUnique(x: nat, n: nat, q: nat, r: nat)
    requires n > 0 && x == n * q + r && r < n
    ensures x / n == q && x % n == r
  {
    var d, e := x / n, x % n;
    assert x == n * d + e;
    Distribute(n, q, d);
    MulAtLeast(n, q - d);
  }

  lemma ModSum(x: nat, y: nat, n: nat)
    requires n > 0
    ensures (x + y) % n == if x % n + y % n < n then x % n + y % n else x % n + y % n - n
  {
    var a, b, s := x / n, y / n, x % n + y % n;
    Distribute(n, a, b);
    Distribute(n, a + b, 1);
    DivModUnique(x + y, n, if s < n then a + b else a + b + 1, if s < n then s else s - n);
  }

  lemma ModNext(x: nat, n: nat)
    requires n > 0
    ensures (x + 1) % n == if x % n == n - 1 then 0 else x % n + 1
  {
    if x % n == n - 1 {
      DivModUnique(x + 1, n, x / n + 1, 0);
    } else {
      DivModUnique(x + 1, n, x / n, x % n + 1);
    }
  }

  /**
    After m picks from a start at position a, each position p has been picked once per full round, and once more if it
    lies among the next m % n positions.
  */
  function Rounds(m: nat, n: nat): nat
    requires n > 0
  {
    m / n
  }

  predicate InPartialRound(counter: nat, m: nat, n: nat, position: nat)
    requires n > 0 && position < n
  {
    (position + n - counter % n) % n < m % n
  }

  lemma {:induction false} FreeCountExact(counter: nat, m: nat, n: nat, position: nat)
    requires n > 0 && position < n
    ensures FreeCount(counter, m, n, position) ==
            Rounds(m, n) + (if InPartialRound(counter, m, n, position) then 1 else 0)
  {
    if m == 0 {
      ModSmall(0, n);
      DivModUnique(0, n, 0, 0);
    } else {
      FreeCountExact(counter, m - 1, n, position);
      OneMorePick(counter, m - 1, n, position);
    }
  }

  /** The pick after m picks hits the position that the partial round adds. */
  lemma OneMorePick(counter: nat, m: nat, n: nat, position: nat)
    requires n > 0 && position < n
    ensures Rounds(m + 1, n) + (if InPartialRound(counter, m + 1, n, position) then 1 else 0) ==
            Rounds(m, n) + (if InPartialRound(counter, m, n, position) then 1 else 0) +
            (if (counter + m) % n == position then 1 else 0)
  {
    var d := (position + n - counter % n) % n;
    HitsExactly(counter, m, n, position);
    if m % n == n - 1 {
      DivModUnique(m + 1, n, m / n + 1, 0);
    } else {
      DivModUnique(m + 1, n, m / n, m % n + 1);
    }
  }

  lemma HitsExactly(counter: nat, m: nat, n: nat, position: nat)
    requires n > 0 && position < n
    ensures (counter + m) % n == position <==> m % n == (position + n - counter % n) % n
  {
    ModSum(counter, m, n);
    var x := position + n - counter % n;
    DivModUnique(x, n, if x < n then 0 else 1, if x < n then x else x - n);
  }

  lemma {:induction false} NoWrapIsFree(counter: nat, m: nat, n: nat, position: nat)
    requires n > 0 && counter + m <= TWO_64
    ensures PickCount(counter, m, n, position) == FreeCount(counter, m, n, position)
  {
    if m == 0 {
    } else {
      NoWrapIsFree(counter, m - 1, n, position);
      ModSmall(counter + m - 1, TWO_64);
    }
  }

  /** Without a wrap of the counter, any window of picks is balanced, and k full rounds pick each position k times. */
  lemma RoundRobinFair(counter: nat, m: nat, n: nat)
    requires n > 0 && counter + m <= TWO_64
    ensures Balanced(counter, m, n)
    ensures m % n == 0 ==> forall p | 0 <= p < n :: PickCount(counter, m, n, p) == m / n
  {
    forall p | 0 <= p < n
      ensures m / n <= PickCount(counter, m, n, p) <= m / n + 1
      ensures m % n == 0 ==> PickCount(counter, m, n, p) == m / n
    {
      NoWrapIsFree(counter, m, n, p);
      FreeCountExact(counter, m, n, p);
    }
  }

  lemma MulAssociates(a: int, b: int, c: int)
    ensures a * (b * c) == (a * b) * c
  {
  }

  lemma ModOfMod(x: nat, big: nat, n: nat)
    requires n > 0 && big > 0 && big % n == 0
    ensures (x % big) % n == x % n
  {
    var k, d, r := x / big, big / n, x % big;
    assert x == r + k * big;
    assert big == d * n;
    MulAssociates(k, d, n);
    ModAddMultiple(r, k * d, n);
  }

  lemma {:induction false} DividingWrapIsFree(counter: nat, m: nat, n: nat, position: nat)
    requires n > 0 && TWO_64 % n == 0
    ensures PickCount(counter, m, n, position) == FreeCount(counter, m, n, position)
  {
    if m == 0 {
    } else {
      DividingWrapIsFree(counter, m - 1, n, position);
      ModOfMod(counter + m - 1, TWO_64, n);
    }
  }

  /**
    Across the wrap: position r - 1, where r is the remainder of 2^64, comes twice before position n - 1 comes at
    all.
  */
  lemma UnbalancedAtWrap(n: nat)
    requires 0 < n <= TWO_64 && TWO_64 % n != 0
    ensures !Balanced(TWO_64 - 1, TWO_64 % n + 1, n)
  {
    var r := TWO_64 % n;
    var start := TWO_64 - 1;
    ModNext(start, n);
    assert PositionAt(start, n) == r - 1;
    AfterWrap(n, r, r - 1);
    AfterWrap(n, r, n - 1);
  }

  lemma {:induction false} AfterWrap(n: nat, k: nat, position: nat)
    requires 0 < n <= TWO_64 && TWO_64 % n != 0 && k <= TWO_64 % n && position < n
    ensures PickCount(TWO_64 - 1, k + 1, n, position) ==
            (if position == TWO_64 % n - 1 then 1 else 0) + (if position < k then 1 else 0)
  {
    var start := TWO_64 - 1;
    if k == 0 {
      ModNext(start, n);
      ModSmall(start, TWO_64);
      assert PickCount(start, 0, n, position) == 0;
    } else {
      AfterWrap(n, k - 1, position);
      DivModUnique(start + k, TWO_64, 1, k - 1);
      ModSmall(k - 1, n);
    }
  }

  /** Windows of any length from any counter value are balanced exactly when the list length divides 2^64. */
  lemma AlwaysBalancedIff(n: nat)
    requires 0 < n <= TWO_64
    ensures (forall counter: nat, m: nat | counter < TWO_64 :: Balanced(counter, m, n)) <==> TWO_64 % n == 0
  {
    if TWO_64 % n == 0 {
      forall counter: nat, m: nat | counter < TWO_64
        ensures Balanced(counter, m, n)
      {
        forall p | 0 <= p < n
          ensures m / n <= PickCount(counter, m, n, p) <= m / n + 1
        {
          DividingWrapIsFree(counter, m, n, p);
          FreeCountExact(counter, m, n, p);
        }
      }
    } else {
      UnbalancedAtWrap(n);
    }
  }

  // ----- weighted random

  function EffectiveWeight(i: Instance): int {
    if i.weight <= 0 then 1 else i.weight
  }

  /** The sum of the effective weights of the first k instances. */
  function PrefixSum(instances: seq<Instance>, k: nat): (s: int)
    requires k <= |instances|
    ensures s >= k
  {
    if k == 0 then 0 else PrefixSum(instances, k - 1) + EffectiveWeight(instances[k - 1])
  }

  lemma {:induction false} PrefixSumGrows(instances: seq<Instance>, i: nat, j: nat)
    requires i <= j <= |instances|
    ensures PrefixSum(instances, i) <= PrefixSum(instances, j)
    ensures i < j ==> PrefixSum(instances, i) < PrefixSum(instances, j)
    decreases j - i
  {
    if i == j {
    } else {
      PrefixSumGrows(instances, i, j - 1);
    }
  }

  function WeightsOf(instances: seq<Instance>): seq<int> {
    seq(|instances|, i requires 0 <= i < |instances| => instances[i].weight)
  }

  function SumOfPositive(weights: seq<int>): int {
    if weights == [] then 0
    else SumOfPositive(weights[..|weights| - 1]) + if weights[|weights| - 1] > 0 then weights[|weights| - 1] else 0
  }

  function CountNotPositive(weights: seq<int>): int {
    if weights == [] then 0
    else CountNotPositive(weights[..|weights| - 1]) + if weights[|weights| - 1] > 0 then 0 else 1
  }

  /** The sum in terms of the weights: the positive ones count as they are, every other one counts 1. */
  lemma {:induction false} PrefixSumMeans(instances: seq<Instance>, k: nat)
    requires k <= |instances|
    ensures PrefixSum(instances, k) ==
            SumOfPositive(WeightsOf(instances)[..k]) + CountNotPositive(WeightsOf(instances)[..k])
  {
    if k == 0 {
    } else {
      PrefixSumMeans(instances, k - 1);
      var weights := WeightsOf(instances);
      assert weights[..k][..k - 1] == weights[..k - 1] && weights[..k][k - 1] == instances[k - 1].weight;
    }
  }

  /** The first loop: the bound of the random draw, in 64-bit arithmetic. */
  method TotalWeight(instances: seq<Instance>) returns (total: int)
    ensures total == Wrap(PrefixSum(instances, |instances|))
    ensures instances != [] && Fits(PrefixSum(instances, |instances|)) ==>
              total == PrefixSum(instances, |instances|) > 0
    ensures total == Wrap(SumOfPositive(WeightsOf(instances)) + CountNotPositive(WeightsOf(instances)))
  {
    total := 0;
    var i := 0;
    while i < |instances|
      invariant 0 <= i <= |instances|
      invariant total == Wrap(PrefixSum(instances, i))
    {
      var w := instances[i].weight;
      if w <= 0 {
        w := 1;
      }
      WrapAdd(PrefixSum(instances, i), w);
      total := Wrap(total + w);
      i := i + 1;
    }
    WrapBelow(PrefixSum(instances, |instances|));
    PrefixSumMeans(instances, |instances|);
    assert WeightsOf(instances)[..|instances|] == WeightsOf(instances);
  }

  /**
    The second loop, for a draw below the total: the picked position is the one whose prefix sums enclose the draw.
    The fallback behind the loop is not reached. A total that has overflowed to zero or below makes the draw panic.
  */
  method PickWeighted(instances: seq<Instance>, draw: int) returns (r: Pick)
    requires var total := Wrap(PrefixSum(instances, |instances|)); total > 0 ==> 0 <= draw < total
    ensures instances == [] ==> r == NoInstances
    ensures instances != [] ==> (r == Panics <==> Wrap(PrefixSum(instances, |instances|)) <= 0)
    ensures instances != [] && r != Panics ==>
              r.Picked? && r.position < |instances| && r.instance == instances[r.position] &&
              PrefixSum(instances, r.position) <= draw < PrefixSum(instances, r.position + 1)
    ensures instances != [] && r != Panics ==>
              forall i: nat | i < |instances| :: Selects(instances, draw, i) <==> r.position == i
  {
    if |instances| == 0 {
      return NoInstances;
    }
    var total := TotalWeight(instances);
    if total <= 0 {
      return Panics;
    }
    WrapBelow(PrefixSum(instances, |instances|));
    var left := draw;
    var i := 0;
    while i < |instances|
      invariant 0 <= i <= |instances|
      invariant left == draw - PrefixSum(instances, i) >= 0
    {
      var w := instances[i].weight;
      if w <= 0 {
        w := 1;
      }
      left := left - w;
      if left < 0 {
        OnlySelected(instances, draw, i);
        return Picked(i, instances[i]);
      }
      i := i + 1;
    }
    assert false;
  }

  /** The draws that lead to a position. */
  predicate Selects(instances: seq<Instance>, draw: int, i: nat)
    requires i < |instances|
  {
    PrefixSum(instances, i) <= draw < PrefixSum(instances, i + 1)
  }

  lemma OnlySelected(instances: seq<Instance>, draw: int, i: nat)
    requires i < |instances| && Selects(instances, draw, i)
    ensures forall j: nat | j < |instances| && Selects(instances, draw, j) :: j == i
  {
    forall j: nat | j < |instances| && Selects(instances, draw, j)
      ensures j == i
    {
      if j < i {
        PrefixSumGrows(instances, j + 1, i);
      } else if j > i {
        PrefixSumGrows(instances, i + 1, j);
      }
    }
  }

  /** Every draw below the total selects one position and no other. */
  lemma {:induction false} SelectsOne(instances: seq<Instance>, draw: int, k: nat) returns (i: nat)
    requires k <= |instances| && 0 <= draw < PrefixSum(instances, k)
    ensures i < k && Selects(instances, draw, i)
    ensures forall j: nat | j < |instances| && Selects(instances, draw, j) :: j == i
  {
    if draw < PrefixSum(instances, k - 1) {
      i := SelectsOne(instances, draw, k - 1);
    } else {
      i := k - 1;
      OnlySelected(instances, draw, i);
    }
  }

  /** The draws below the bound that PickWeighted answers with position i. */
  function DrawsOf(instances: seq<Instance>, bound: nat, i: nat): set<int>
    requires i < |instances|
  {
    set d | d in Interval(0, bound) && Selects(instances, d, i)
  }

  /**
    Of the draws below the sum, an instance is the answer to as many as its weight says, or to one if that is not
    positive.
  */
  lemma WeightedShare(instances: seq<Instance>, i: nat)
    requires i < |instances|
    ensures DrawsOf(instances, PrefixSum(instances, |instances|), i) ==
            Interval(PrefixSum(instances, i), PrefixSum(instances, i + 1))
    ensures |DrawsOf(instances, PrefixSum(instances, |instances|), i)| ==
            if instances[i].weight > 0 then instances[i].weight else 1
  {
    PrefixSumGrows(instances, i + 1, |instances|);
    assert DrawsOf(instances, PrefixSum(instances, |instances|), i) ==
           Interval(PrefixSum(instances, i), PrefixSum(instances, i + 1));
  }

  /**
    When the draw is possible at all, every position gets its share of the draws exactly when the sum fits in an
    int.
  */
  lemma WeightedShareIff(instances: seq<Instance>)
    requires instances != [] && Wrap(PrefixSum(instances, |instances|)) > 0
    ensures (forall i: nat | i < |instances| ::
               |DrawsOf(instances, Wrap(PrefixSum(instances, |instances|)), i)| ==
               if instances[i].weight > 0 then instances[i].weight else 1) <==>
            Fits(PrefixSum(instances, |instances|))
  {
    var sum, last := PrefixSum(instances, |instances|), |instances| - 1;
    WrapBelow(sum);
    if Fits(sum) {
      forall i: nat | i < |instances|
        ensures |DrawsOf(instances, sum, i)| == if instances[i].weight > 0 then instances[i].weight else 1
      {
        WeightedShare(instances, i);
      }
    } else {
      var draws := DrawsOf(instances, Wrap(sum), last);
      SubsetSize(draws, Interval(PrefixSum(instances, last), sum - 1));
      assert |draws| < EffectiveWeight(instances[last]);
    }
  }
}
