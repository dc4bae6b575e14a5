// Proportional allocation: the contract's `scale_sub_routes_to_total`.

module Rescale {
  import opened Arith
  import opened Base

  // ----- The allocation -----

  /** The floor share of route k. */
  function Share(w: seq<int>, total: int, k: nat): int
    requires k < |w| && Sum(w) > 0
  {
    w[k] * total / Sum(w)
  }

  /** The floor shares of the first k routes. */
  function Shares(w: seq<int>, total: int, k: nat): (s: seq<int>)
    requires k <= |w| && Sum(w) > 0
    ensures |s| == k
  {
    if k == 0 then [] else Shares(w, total, k - 1) + [Share(w, total, k - 1)]
  }

  lemma {:induction false} SharesAt(w: seq<int>, total: int, k: nat, j: nat)
    requires j < k <= |w| && Sum(w) > 0
    ensures Shares(w, total, k)[j] == Share(w, total, j)
  {
    if j < k - 1 {
      SharesAt(w, total, k - 1, j);
    }
  }

  /** Floor shares for every route but the last, which takes what is left. */
  function Allocation(w: seq<int>, total: int): (a: seq<int>)
    requires w != [] && Sum(w) > 0
    ensures |a| == |w|
  {
    var shares := Shares(w, total, |w| - 1);
    shares + [total - Sum(shares)]
  }

  lemma {:induction false} SharesStep(w: seq<int>, total: int, k: nat)
    requires k < |w| && Sum(w) > 0
    ensures Shares(w, total, k + 1) == Shares(w, total, k) + [Share(w, total, k)]
    ensures Sum(Shares(w, total, k + 1)) == Sum(Shares(w, total, k)) + Share(w, total, k)
  {
    SumAppend(Shares(w, total, k), Share(w, total, k));
  }

  /** A part below its exact share x * total / d by less than one. */
  ghost predicate IsFloorShare(part: int, x: int, total: int, d: int) {
    part * d <= x * total < part * d + d
  }

  /** Parts for the weight x that together fall short of x * total / d by at most k * (d - 1) / d. */
  ghost predicate FallsShort(parts: int, x: int, total: int, d: int, k: nat) {
    parts * d <= x * total <= parts * d + k * (d - 1)
  }

  /** A part that is at least its exact share and exceeds it by at most others * (d - 1) / d. */
  ghost predicate IsRemainderShare(part: int, x: int, total: int, d: int, others: nat) {
    x * total <= part * d <= x * total + others * (d - 1)
  }

  lemma ShareIsFloor(w: seq<int>, total: int, k: nat)
    requires k < |w| && Sum(w) > 0
    ensures IsFloorShare(Share(w, total, k), w[k], total, Sum(w))
  {
    DivBound(w[k] * total, Sum(w));
  }

  lemma {:induction false} SharesBound(w: seq<int>, total: int, k: nat)
    requires k <= |w| && Sum(w) > 0
    ensures FallsShort(Sum(Shares(w, total, k)), Sum(w[..k]), total, Sum(w), k)
  {
    hide Share, IsFloorShare;
    if k == 0 {
      assert w[..0] == [];
    } else {
      hide FallsShort;
      SharesBound(w, total, k - 1);
      SharesStep(w, total, k - 1);
      SumTake(w, k - 1);
      ShareIsFloor(w, total, k - 1);
      BoundStep(Sum(Shares(w, total, k - 1)), Share(w, total, k - 1), Sum(w[..k - 1]), w[k - 1], total, Sum(w), k);
    }
  }

  lemma BoundStep(p: int, s: int, q: int, x: int, total: int, d: int, k: nat)
    requires k > 0 && FallsShort(p, q, total, d, k - 1) && IsFloorShare(s, x, total, d)
    ensures FallsShort(p + s, q + x, total, d, k)
  {
    Distribute(p, s, d);
    Distribute(q, x, total);
    Distribute(k - 1, 1, d - 1);
  }

  lemma RemainderStep(p: int, q: int, x: int, total: int, d: int, others: nat)
    requires d == q + x && FallsShort(p, q, total, d, others)
    ensures IsRemainderShare(total - p, x, total, d, others)
  {
    Distribute(q, x, total);
    Distribute(total, -p, d);
  }

  lemma FloorPart(w: seq<int>, total: int, k: nat)
    requires k < |w| - 1 && Sum(w) > 0
    ensures IsFloorShare(Allocation(w, total)[k], w[k], total, Sum(w))
  {
    hide Share, IsFloorShare;
    SharesAt(w, total, |w| - 1, k);
    ShareIsFloor(w, total, k);
  }

  lemma AllocationSum(w: seq<int>, total: int)
    requires w != [] && Sum(w) > 0
    ensures Sum(Allocation(w, total)) == total
  {
    var shares := Shares(w, total, |w| - 1);
    SumAppend(shares, total - Sum(shares));
  }

  /** The remainder left to the last part. */
  lemma RemainderBound(w: seq<int>, total: int)
    requires w != [] && Sum(w) > 0
    ensures IsRemainderShare(Allocation(w, total)[|w| - 1], w[|w| - 1], total, Sum(w), |w| - 1)
  {
    hide Share, FallsShort, IsRemainderShare;
    var n := |w|;
    SharesBound(w, total, n - 1);
    SumTake(w, n - 1);
    assert w[..n] == w;
    RemainderStep(Sum(Shares(w, total, n - 1)), Sum(w[..n - 1]), w[n - 1], total, Sum(w), n - 1);
  }

  /** The allocation is exact and proportional, for every positive weight list and target:
      the parts sum to the target, each non-last part is less than one below its exact
      share, and the last part exceeds its share by less than the number of other routes
      (and equals it when there are none). */
  lemma AllocationIsProportional(w: seq<int>, total: int)
    requires w != [] && forall k :: 0 <= k < |w| ==> w[k] > 0
    ensures Sum(w) > 0
    ensures Sum(Allocation(w, total)) == total
    ensures forall k :: 0 <= k < |w| - 1 ==> IsFloorShare(Allocation(w, total)[k], w[k], total, Sum(w))
    ensures IsRemainderShare(Allocation(w, total)[|w| - 1], w[|w| - 1], total, Sum(w), |w| - 1)
  {
    hide Share, IsFloorShare, IsRemainderShare;
    SumPositive(w);
    AllocationSum(w, total);
    RemainderBound(w, total);
    forall k | 0 <= k < |w| - 1
      ensures IsFloorShare(Allocation(w, total)[k], w[k], total, Sum(w))
    {
      FloorPart(w, total, k);
    }
  }

  lemma PartPositivity(w: seq<int>, total: int, k: nat)
    requires k < |w| && total > 0 && forall j :: 0 <= j < |w| ==> w[j] > 0
    requires Sum(w) > 0
    ensures var part := Allocation(w, total)[k];
            if k == |w| - 1 then 0 < part <= total
            else 0 <= part <= total && (part == 0 <==> w[k] * total < Sum(w))
  {
    MulLt(0, w[k], total);
    if k == |w| - 1 {
      RemainderBound(w, total);
      SharesNonNegative(w, total, k);
      MulLe(Allocation(w, total)[k], 0, Sum(w));
    } else {
      FloorPart(w, total, k);
      SumPrefix(w, k + 1);
      SumTake(w, k);
      SumPositive(w[..k]);
      PartRange(w[k], Sum(w), total, Allocation(w, total)[k]);
    }
  }

  /** With a positive target the last part is never the one that vanishes, and a non-last
      part vanishes exactly when its weight times the target is below the weight sum. */
  lemma AllocationPositivity(w: seq<int>, total: int)
    requires w != [] && total > 0 && forall k :: 0 <= k < |w| ==> w[k] > 0
    ensures Sum(w) > 0
    ensures forall k :: 0 <= k < |w| ==> 0 <= Allocation(w, total)[k] <= total
    ensures forall k :: 0 <= k < |w| ==>
              (Allocation(w, total)[k] == 0 <==> k < |w| - 1 && w[k] * total < Sum(w))
  {
    hide Share;
    SumPositive(w);
    forall k | 0 <= k < |w|
      ensures 0 <= Allocation(w, total)[k] <= total
      ensures Allocation(w, total)[k] == 0 <==> k < |w| - 1 && w[k] * total < Sum(w)
    {
      PartPositivity(w, total, k);
    }
  }

  lemma PartRange(x: int, d: int, total: int, a: int)
    requires 0 < x <= d && total > 0
    requires IsFloorShare(a, x, total, d)
    ensures 0 <= a <= total
    ensures a == 0 <==> x * total < d
  {
    MulLt(0, x, total);
    MulLe(x, d, total);
    Distribute(a, 1, d);
    MulLe(a + 1, 0, d);
    MulLe(total + 1, a, d);
    MulLe(1, a, d);
    Distribute(total, 1, d);
  }

  lemma {:induction false} SharesNonNegative(w: seq<int>, total: int, k: nat)
    requires k <= |w| && total >= 0 && forall j :: 0 <= j < |w| ==> w[j] > 0
    requires Sum(w) > 0
    ensures Sum(Shares(w, total, k)) >= 0
  {
    if k == 0 {
    } else {
      SharesNonNegative(w, total, k - 1);
      SharesStep(w, total, k - 1);
      MulLe(0, w[k - 1], total);
      DivBound(w[k - 1] * total, Sum(w));
      MulLe(Share(w, total, k - 1) + 1, 0, Sum(w));
    }
  }

  /** Rescaling to the present total changes nothing. */
  lemma AllocationIdentity(w: seq<int>)
    requires w != [] && forall k :: 0 <= k < |w| ==> w[k] > 0
    ensures Sum(w) > 0 && Allocation(w, Sum(w)) == w
  {
    hide Share;
    SumPositive(w);
    SharesIdentity(w, |w| - 1);
    AllocationSum(w, Sum(w));
    PrefixDetermines(Allocation(w, Sum(w)), w);
  }

  /** Two lists with the same front and the same sum are equal. */
  lemma PrefixDetermines(a: seq<int>, w: seq<int>)
    requires |a| == |w| > 0 && a[..|a| - 1] == w[..|w| - 1] && Sum(a) == Sum(w)
    ensures a == w
  {
    assert a == a[..|a| - 1] + [a[|a| - 1]];
    assert w == w[..|w| - 1] + [w[|w| - 1]];
  }

  lemma {:induction false} SharesIdentity(w: seq<int>, k: nat)
    requires k <= |w| && Sum(w) > 0
    ensures Shares(w, Sum(w), k) == w[..k]
  {
    if k == 0 {
    } else {
      SharesIdentity(w, k - 1);
      Distribute(w[k - 1], 1, Sum(w));
      DivUnique(w[k - 1] * Sum(w), Sum(w), w[k - 1]);
    }
  }

  // ----- The contract's rescaling -----

  /** Everything checked before the allocation loop: the weight sum, accumulated with overflow checks. */
  function WeightSum(routes: seq<SubRoute>, i: nat, acc: int128): (r: Result<int128>)
    requires i <= |routes|
    ensures r.Ok? ==> r.value >= acc + |routes| - i
    decreases |routes| - i
  {
    if i == |routes| then Ok(acc)
    else if routes[i].amountIn <= 0 then Err(InAggregator(InvalidAmount))
    else if acc + routes[i].amountIn > I128_MAX then Err(InAggregator(ArithmeticOverflow))
    else WeightSum(routes, i + 1, acc + routes[i].amountIn)
  }

  lemma {:induction false} WeightSumIsSum(routes: seq<SubRoute>, i: nat, acc: int128)
    requires i <= |routes| && acc == Sum(Amounts(routes)[..i])
    requires forall k :: 0 <= k < i ==> routes[k].amountIn > 0
    ensures var r := WeightSum(routes, i, acc);
            r.Ok? <==> (forall k :: 0 <= k < |routes| ==> routes[k].amountIn > 0) && Sum(Amounts(routes)) <= I128_MAX
    ensures var r := WeightSum(routes, i, acc); r.Ok? ==> r.value == Sum(Amounts(routes))
    decreases |routes| - i
  {
    var w := Amounts(routes);
    if i == |routes| {
      assert w[..i] == w;
    } else if routes[i].amountIn > 0 {
      SumTake(w, i);
      if acc + routes[i].amountIn > I128_MAX {
        if forall k :: 0 <= k < |routes| ==> routes[k].amountIn > 0 {
          SumPrefix(w, i + 1);
        }
      } else {
        WeightSumIsSum(routes, i + 1, acc + routes[i].amountIn);
      }
    }
  }

  /** What the contract demands of weights and target, stated without the loop. */
  ghost predicate Scalable(routes: seq<SubRoute>, total: int128) {
    var w := Amounts(routes);
    && routes != [] && total > 0
    && (forall k :: 0 <= k < |w| ==> w[k] > 0)
    && Sum(w) <= I128_MAX
    && ScalableFrom(w, total, 0)
  }

  /** The part of `Scalable` that is about representability rather than about the shares. */
  ghost predicate NoOverflow(routes: seq<SubRoute>, total: int128) {
    var w := Amounts(routes);
    Sum(w) <= I128_MAX && forall k :: 0 <= k < |w| - 1 ==> w[k] * total <= I128_MAX
  }

  /** The amount the loop hands to route i, and the running total after it. */
  function ScaledAmount(routes: seq<SubRoute>, total: int128, weightSum: int128, i: nat, given: int128):
    (r: Result<(int128, int128)>)
    requires i < |routes| && weightSum > 0
  {
    if i == |routes| - 1 then
      var amount :- CheckedSub(total, given, InAggregator(ArithmeticUnderflow));
      Ok((amount, given))
    else
      var product :- CheckedMul(routes[i].amountIn, total, InAggregator(ArithmeticOverflow));
      var scaled := TruncatingDiv(product, weightSum);
      var given' :- CheckedAdd(given, scaled, InAggregator(ArithmeticOverflow));
      Ok((scaled, given'))
  }

  /** The allocation loop from route i on, having already given out `given`. */
  function ScaleFrom(routes: seq<SubRoute>, total: int128, weightSum: int128, i: nat, given: int128):
    Result<seq<SubRoute>>
    requires i <= |routes| && weightSum > 0
    decreases |routes| - i
  {
    if i == |routes| then Ok([])
    else
      var (amount, given') :- ScaledAmount(routes, total, weightSum, i, given);
      if amount <= 0 then Err(InAggregator(InvalidAmount))
      else
        var rest :- ScaleFrom(routes, total, weightSum, i + 1, given');
        Ok([SubRoute(amount, routes[i].steps)] + rest)
  }

  function ScaleSubRoutesToTotal(routes: seq<SubRoute>, total: int128): Result<seq<SubRoute>> {
    if routes == [] then Err(InAggregator(EmptyRoutes))
    else if total <= 0 then Err(InAggregator(InvalidAmount))
    else
      var weightSum :- WeightSum(routes, 0, 0);
      ScaleFrom(routes, total, weightSum, 0, 0)
  }

  /** What the loop hands to the last route. */
  lemma LastAmountIsPart(routes: seq<SubRoute>, total: int128, given: int128)
    requires routes != [] && total > 0
    requires forall k :: 0 <= k < |routes| ==> routes[k].amountIn > 0
    requires 0 < Sum(Amounts(routes)) <= I128_MAX
    requires given == Sum(Shares(Amounts(routes), total, |routes| - 1))
    ensures var w := Amounts(routes);
            var part := Allocation(w, total)[|w| - 1];
            0 < part <= total && ScaledAmount(routes, total, Sum(w), |w| - 1, given) == Ok((part, given))
  {
    var w := Amounts(routes);
    PartPositivity(w, total, |w| - 1);
    SharesNonNegative(w, total, |w| - 1);
    SharesAtMostTotal(w, total, |w| - 1);
  }

  lemma PartIsShare(w: seq<int>, total: int, i: nat)
    requires i < |w| - 1 && Sum(w) > 0
    ensures Allocation(w, total)[i] == Share(w, total, i)
  {
    hide Share, Shares;
    SharesAt(w, total, |w| - 1, i);
  }

  /** One turn of the loop, where the running sum stays below the total: only the product can overflow. */
  lemma CheckedShare(routes: seq<SubRoute>, total: int128, d: int128, i: nat, given: int128)
    requires i < |routes| - 1 && total > 0 && d > 0 && routes[i].amountIn > 0
    requires given >= 0 && given + routes[i].amountIn * total / d <= total
    ensures var r, share := ScaledAmount(routes, total, d, i, given), routes[i].amountIn * total / d;
            && (r.Ok? <==> routes[i].amountIn * total <= I128_MAX)
            && (r.Ok? ==> r.value == (share, given + share))
  {
    var product := routes[i].amountIn * total;
    MulLt(0, routes[i].amountIn, total);
    DivBound(product, d);
    MulLe(product / d + 1, 0, d);
  }

  /** What the loop hands to any other route, and when it can. */
  lemma ScaledAmountIsPart(routes: seq<SubRoute>, total: int128, i: nat, given: int128)
    requires i < |routes| - 1 && total > 0
    requires forall k :: 0 <= k < |routes| ==> routes[k].amountIn > 0
    requires 0 < Sum(Amounts(routes)) <= I128_MAX
    requires given == Sum(Shares(Amounts(routes), total, i))
    ensures var w := Amounts(routes);
            var r := ScaledAmount(routes, total, Sum(w), i, given);
            var part := Allocation(w, total)[i];
            && (r.Ok? && part > 0 <==> ShareFits(w[i], total, Sum(w)))
            && 0 <= part <= total
            && (r.Ok? ==> r.value == (part, Sum(Shares(w, total, i + 1))))
  {
    var w := Amounts(routes);
    hide ScaledAmount, Shares, Allocation, Sum;
    PartPositivity(w, total, i);
    PartIsShare(w, total, i);
    SharesStep(w, total, i);
    SharesNonNegative(w, total, i);
    SharesAtMostTotal(w, total, i + 1);
    CheckedShare(routes, total, Sum(w), i, given);
  }

  /** The product of weight and target is representable and its share does not round to zero. */
  ghost predicate ShareFits(x: int, total: int, d: int) {
    d <= x * total <= I128_MAX
  }

  /** Whether the products and shares of the routes from i on let the loop finish. */
  ghost predicate ScalableFrom(w: seq<int>, total: int, i: nat) {
    forall k :: i <= k < |w| - 1 ==> ShareFits(w[k], total, Sum(w))
  }

  lemma {:induction false} ScaleFromSucceeds(routes: seq<SubRoute>, total: int128, i: nat, given: int128)
    requires i < |routes| && total > 0
    requires forall k :: 0 <= k < |routes| ==> routes[k].amountIn > 0
    requires 0 < Sum(Amounts(routes)) <= I128_MAX
    requires given == Sum(Shares(Amounts(routes), total, i))
    ensures var w := Amounts(routes);
            ScaleFrom(routes, total, Sum(w), i, given).Ok? <==> ScalableFrom(w, total, i)
    decreases |routes| - i
  {
    hide ScaledAmount, Share, ShareFits;
    var w := Amounts(routes);
    if i == |w| - 1 {
      LastAmountIsPart(routes, total, given);
    } else {
      ScaledAmountIsPart(routes, total, i, given);
      var turn := ScaledAmount(routes, total, Sum(w), i, given);
      if turn.Ok? && turn.value.0 > 0 {
        ScaleFromSucceeds(routes, total, i + 1, turn.value.1);
      }
    }
  }

  lemma {:induction false} ScaleFromKeepsSteps(routes: seq<SubRoute>, total: int128, d: int128, i: nat, given: int128)
    requires i <= |routes| && d > 0
    ensures var r := ScaleFrom(routes, total, d, i, given);
            r.Ok? ==> |r.value| == |routes| - i && forall k :: 0 <= k < |r.value| ==> r.value[k].steps == routes[i + k].steps
    decreases |routes| - i
  {
    hide ScaledAmount;
    if i == |routes| {
    } else {
      var turn := ScaledAmount(routes, total, d, i, given);
      if turn.Ok? {
        ScaleFromKeepsSteps(routes, total, d, i + 1, turn.value.1);
      }
    }
  }

  lemma ScaleFromEnd(routes: seq<SubRoute>, total: int128, d: int128, given: int128)
    requires d > 0
    ensures ScaleFrom(routes, total, d, |routes|, given) == Ok([])
  {
  }

  lemma {:induction false} ScaleFromIsAllocation(routes: seq<SubRoute>, total: int128, i: nat, given: int128)
    requires i < |routes| && total > 0
    requires forall k :: 0 <= k < |routes| ==> routes[k].amountIn > 0
    requires 0 < Sum(Amounts(routes)) <= I128_MAX
    requires given == Sum(Shares(Amounts(routes), total, i))
    ensures var w := Amounts(routes);
            var r := ScaleFrom(routes, total, Sum(w), i, given);
            r.Ok? ==> Amounts(r.value) == Allocation(w, total)[i..]
    decreases |routes| - i
  {
    hide ScaledAmount, Share, Shares, ShareFits, Allocation, Sum;
    var w := Amounts(routes);
    var r := ScaleFrom(routes, total, Sum(w), i, given);
    if i == |w| - 1 {
      LastAmountIsPart(routes, total, given);
      ScaleFromEnd(routes, total, Sum(w), given);
      assert r == Ok([SubRoute(Allocation(w, total)[i], routes[i].steps)] + []);
    } else {
      ScaledAmountIsPart(routes, total, i, given);
      if r.Ok? {
        var turn := ScaledAmount(routes, total, Sum(w), i, given);
        ScaleFromIsAllocation(routes, total, i + 1, turn.value.1);
        var rest := ScaleFrom(routes, total, Sum(w), i + 1, turn.value.1).value;
        assert r.value == [SubRoute(turn.value.0, routes[i].steps)] + rest;
        assert Amounts(r.value) == [turn.value.0] + Amounts(rest);
      }
    }
  }

  lemma {:induction false} SharesAtMostTotal(w: seq<int>, total: int, k: nat)
    requires k < |w| && total > 0 && forall j :: 0 <= j < |w| ==> w[j] > 0
    requires Sum(w) > 0
    ensures Sum(Shares(w, total, k)) < total
  {
    hide Share, FallsShort;
    SharesBound(w, total, k);
    SumPrefix(w, k);
    ShortOfTotal(Sum(Shares(w, total, k)), Sum(w[..k]), total, Sum(w), k);
  }

  lemma ShortOfTotal(p: int, q: int, total: int, d: int, k: nat)
    requires q < d && d > 0 && total > 0 && FallsShort(p, q, total, d, k)
    ensures p < total
  {
    MulLt(q, d, total);
    MulLe(total, p, d);
  }

  ghost predicate ScaledAs(r: seq<SubRoute>, routes: seq<SubRoute>, a: seq<int>) {
    && |r| == |routes|
    && Amounts(r) == a
    && forall k :: 0 <= k < |routes| ==> r[k].steps == routes[k].steps
  }

  lemma WholeLoopIsAllocation(routes: seq<SubRoute>, total: int128)
    requires routes != [] && total > 0
    requires forall k :: 0 <= k < |routes| ==> routes[k].amountIn > 0
    requires 0 < Sum(Amounts(routes)) <= I128_MAX
    ensures var w := Amounts(routes);
            var r := ScaleFrom(routes, total, Sum(w), 0, 0);
            && (r.Ok? <==> ScalableFrom(w, total, 0))
            && (r.Ok? ==> ScaledAs(r.value, routes, Allocation(w, total)))
  {
    hide Share, ScaleFrom, ScaledAmount, Allocation, ScalableFrom;
    var w := Amounts(routes);
    ScaleFromSucceeds(routes, total, 0, 0);
    ScaleFromIsAllocation(routes, total, 0, 0);
    ScaleFromKeepsSteps(routes, total, Sum(w), 0, 0);
    assert Allocation(w, total)[0..] == Allocation(w, total);
  }

  /** The rescaling succeeds exactly on scalable input, and then yields the allocation. */
  lemma ScaleSubRoutesIsAllocation(routes: seq<SubRoute>, total: int128)
    ensures var r := ScaleSubRoutesToTotal(routes, total);
            && (r.Ok? <==> Scalable(routes, total))
            && (r.Ok? ==> Sum(Amounts(routes)) > 0 && ScaledAs(r.value, routes, Allocation(Amounts(routes), total)))
  {
    hide Share, ScaleFrom, ScaledAmount, Allocation, ScalableFrom, ScaledAs;
    if routes != [] && total > 0 {
      var w := Amounts(routes);
      assert w[..0] == [];
      WeightSumIsSum(routes, 0, 0);
      if (forall k :: 0 <= k < |w| ==> w[k] > 0) && Sum(w) <= I128_MAX {
        SumPositive(w);
        WholeLoopIsAllocation(routes, total);
      }
    }
  }

  /** Barring overflow, positive weights fail to rescale exactly when some non-last share rounds to zero. */
  lemma ScaleFailsOnlyOnVanishingShare(routes: seq<SubRoute>, total: int128)
    requires routes != [] && total > 0 && NoOverflow(routes, total)
    requires forall k :: 0 <= k < |routes| ==> routes[k].amountIn > 0
    ensures ScaleSubRoutesToTotal(routes, total).Err? <==>
            exists k :: 0 <= k < |routes| - 1 && routes[k].amountIn * total < Sum(Amounts(routes))
  {
    hide Share, ScaleSubRoutesToTotal;
    var w := Amounts(routes);
    ScaleSubRoutesIsAllocation(routes, total);
    assert forall k :: 0 <= k < |w| ==> w[k] == routes[k].amountIn;
  }

  /** Every executed back leg is positive and together they use the target exactly. */
  lemma ScaledRoutesAreExact(routes: seq<SubRoute>, total: int128)
    requires ScaleSubRoutesToTotal(routes, total).Ok?
    ensures var scaled := ScaleSubRoutesToTotal(routes, total).value;
            && |scaled| == |routes|
            && Sum(Amounts(scaled)) == total
            && forall k :: 0 <= k < |scaled| ==> scaled[k].amountIn > 0 && scaled[k].steps == routes[k].steps
  {
    hide Share, ScaleSubRoutesToTotal, IsFloorShare, IsRemainderShare;
    ScaleSubRoutesIsAllocation(routes, total);
    var w := Amounts(routes);
    var scaled := ScaleSubRoutesToTotal(routes, total).value;
    AllocationIsProportional(w, total);
    AllocationPositivity(w, total);
    forall k | 0 <= k < |scaled|
      ensures scaled[k].amountIn > 0
    {
      assert Amounts(scaled)[k] == Allocation(w, total)[k];
    }
  }

  /** `scale_sub_routes_to_total`: two loops over the routes. */
  method ScaleInLoops(routes: seq<SubRoute>, total: int128) returns (r: Result<seq<SubRoute>>)
    ensures r == ScaleSubRoutesToTotal(routes, total)
  {
    hide ScaledAmount;
    if routes == [] {
      return Err(InAggregator(EmptyRoutes));
    }
    if total <= 0 {
      return Err(InAggregator(InvalidAmount));
    }
    var weightSum: int128 := 0;
    for i := 0 to |routes|
      invariant weightSum >= i
      invariant WeightSum(routes, 0, 0) == WeightSum(routes, i, weightSum)
    {
      if routes[i].amountIn <= 0 {
        return Err(InAggregator(InvalidAmount));
      }
      if weightSum + routes[i].amountIn > I128_MAX {
        return Err(InAggregator(ArithmeticOverflow));
      }
      weightSum := weightSum + routes[i].amountIn;
    }

    var out: seq<SubRoute> := [];
    var given: int128 := 0;
    PrependNothing(ScaleFrom(routes, total, weightSum, 0, 0));
    for i := 0 to |routes|
      invariant weightSum > 0
      invariant ScaleFrom(routes, total, weightSum, 0, 0)
                == Prepend(out, ScaleFrom(routes, total, weightSum, i, given))
    {
      var turn := ScaledAmount(routes, total, weightSum, i, given);
      if turn.Err? {
        return Err(turn.error);
      }
      var (amount, given') := turn.value;
      if amount <= 0 {
        return Err(InAggregator(InvalidAmount));
      }
      PrependStep(out, SubRoute(amount, routes[i].steps), ScaleFrom(routes, total, weightSum, i + 1, given'));
      out, given := out + [SubRoute(amount, routes[i].steps)], given';
    }
    assert out + [] == out;
    return Ok(out);
  }

  lemma PrependNothing(rest: Result<seq<SubRoute>>)
    ensures Prepend([], rest) == rest
  {
    if rest.Ok? {
      assert [] + rest.value == rest.value;
    }
  }

  lemma PrependStep(done: seq<SubRoute>, next: SubRoute, rest: Result<seq<SubRoute>>)
    ensures Prepend(done, Prepend([next], rest)) == Prepend(done + [next], rest)
  {
    if rest.Ok? {
      assert done + ([next] + rest.value) == done + [next] + rest.value;
    }
  }

  function Prepend(done: seq<SubRoute>, rest: Result<seq<SubRoute>>): Result<seq<SubRoute>> {
    if rest.Ok? then Ok(done + rest.value) else rest
  }
}
