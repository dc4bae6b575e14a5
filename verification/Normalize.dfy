// The bot's own copy of the proportional split, and the leg payloads it prepares.

module Normalize {
  import opened Arith
  import opened Base
  import Rescale

  /** One routed part of a quoted leg. */
  datatype SubOrder = SubOrder(amountIn: uint128, expectedOut: uint128)

  function OrderAmounts(orders: seq<SubOrder>): (w: seq<int>)
    ensures |w| == |orders| && forall k :: 0 <= k < |w| ==> w[k] == orders[k].amountIn
    ensures Weights(w)
  {
    seq(|orders|, k requires 0 <= k < |orders| => orders[k].amountIn)
  }

  ghost predicate Weights(w: seq<int>) {
    forall k :: 0 <= k < |w| ==> 0 <= w[k] <= U128_MAX
  }

  lemma {:induction false} WeightsSum(w: seq<int>, k: nat)
    requires Weights(w) && k <= |w|
    ensures 0 <= Sum(w[..k]) <= Sum(w)
    ensures k < |w| ==> w[k] <= Sum(w)
    decreases |w|
  {
    if k < |w| {
      WeightsSum(w[..|w| - 1], if k < |w| - 1 then k else |w| - 1);
      assert w[..|w| - 1][..k] == w[..k];
      assert w[..|w| - 1][..|w| - 1] == w[..|w| - 1];
    } else {
      assert w[..k] == w;
      if w != [] {
        WeightsSum(w[..|w| - 1], |w| - 1);
        assert w[..|w| - 1][..|w| - 1] == w[..|w| - 1];
      }
    }
  }

  /** `u128::saturating_mul` followed by the division, raised to at least one unit. */
  function RaisedShare(x: int, target: uint128, current: int): (r: int)
    requires current > 0 && 0 <= x <= current
    ensures 1 <= r
  {
    var product := if x * target > U128_MAX then U128_MAX else x * target;
    var share := product / current;
    if share < 1 then 1 else share
  }

  /** A share is the quotient of the product, which saturates at 128 bits, rounded down, but never less than one. */
  lemma RaisedShareMeans(x: int, target: uint128, current: int)
    requires current > 0 && 0 <= x <= current
    ensures var share := RaisedShare(x, target, current);
            var capped := if x * target < 0x1_0000_0000_0000_0000_0000_0000_0000_0000 then x * target
                          else 0xFFFF_FFFF_FFFF_FFFF_FFFF_FFFF_FFFF_FFFF;
            if capped < current then share == 1 else share * current <= capped < (share + 1) * current
  {
    var capped := if x * target > U128_MAX then U128_MAX else x * target;
    MulLe(0, x, target);
    DivBound(capped, current);
    if capped >= current {
      MulLe(capped / current + 1, 1, current);
    }
  }

  lemma RaisedShareBound(x: int, target: uint128, current: int)
    requires current > 0 && 0 <= x <= current
    ensures RaisedShare(x, target, current) <= target + 1
  {
    var product := if x * target > U128_MAX then U128_MAX else x * target;
    MulLe(x, current, target);
    DivBound(product, current);
    MulLe(target + 1, product / current, current);
    Distribute(target, 1, current);
  }

  /** With a representable product that reaches the divisor, the raised share is the plain floor share. */
  lemma RaisedShareIsShare(x: int, target: uint128, current: int)
    requires current > 0 && 0 <= x <= current
    requires current <= x * target <= U128_MAX
    ensures RaisedShare(x, target, current) == x * target / current
  {
    DivBound(x * target, current);
    MulLe(x * target / current + 1, 1, current);
  }

  function RaisedShares(w: seq<int>, target: uint128, k: nat): (s: seq<int>)
    requires Weights(w) && Sum(w) > 0 && k <= |w|
    ensures |s| == k && Sum(s) >= 0
  {
    if k == 0 then [] else
      WeightsSum(w, k - 1);
      SumAppend(RaisedShares(w, target, k - 1), RaisedShare(w[k - 1], target, Sum(w)));
      RaisedShares(w, target, k - 1) + [RaisedShare(w[k - 1], target, Sum(w))]
  }

  /** What the normalization leaves behind: shares raised to one unit, and a floored remainder. */
  function Normalized(w: seq<int>, target: uint128): (a: seq<int>)
    requires Weights(w)
    ensures |a| == |w|
  {
    if w == [] || target == 0 || Sum(w) == target then w
    else if Sum(w) <= 0 then (if |w| == 1 then [target] else w)
    else
      var shares := RaisedShares(w, target, |w| - 1);
      shares + [SaturatingSub(target, Sum(shares))]
  }

  lemma {:induction false} RaisedSharesRange(w: seq<int>, target: uint128, k: nat)
    requires Weights(w) && Sum(w) > 0 && k <= |w|
    ensures forall j :: 0 <= j < k ==> 1 <= RaisedShares(w, target, k)[j] <= target + 1
    ensures k <= Sum(RaisedShares(w, target, k))
  {
    hide RaisedShare;
    if k == 0 {
    } else {
      RaisedSharesRange(w, target, k - 1);
      WeightsSum(w, k - 1);
      RaisedShareBound(w[k - 1], target, Sum(w));
      SumAppend(RaisedShares(w, target, k - 1), RaisedShare(w[k - 1], target, Sum(w)));
    }
  }

  /** The normalized amounts add up to the target, or to what the parts before the last were handed if that is more. */
  lemma {:induction false} NormalizedTotal(w: seq<int>, target: uint128)
    requires Weights(w) && w != [] && target > 0 && 0 < Sum(w) != target
    ensures var handedOut := Sum(RaisedShares(w, target, |w| - 1));
            && Sum(Normalized(w, target)) == (if handedOut > target then handedOut else target)
            && Normalized(w, target)[|w| - 1] == SaturatingSub(target, handedOut)
  {
    var shares := RaisedShares(w, target, |w| - 1);
    SumAppend(shares, SaturatingSub(target, Sum(shares)));
  }

  /** A tiny part raised to one unit can overdraw the target: the sum is then too large and the last part is empty. */
  lemma RaisingCanOverdraw()
    ensures Weights([1, 1, 1000]) && Normalized([1, 1, 1000], 1) == [1, 1, 0]
    ensures Sum(Normalized([1, 1, 1000], 1)) == 2
  {
    var w := [1, 1, 1000];
    assert w[..2] == [1, 1] && w[..2][..1] == [1] && [1][..0] == [];
    assert Sum(w) == 1002;
    assert RaisedShares(w, 1, 1) == [] + [1];
    assert RaisedShares(w, 1, 2) == [1] + [1];
    assert Sum([1, 1]) == 2 by {
      SumAppend([1], 1);
    }
    SumAppend([1, 1], 0);
  }

  /** Positive weights whose products with the target fit the bot's type. */
  ghost predicate Routable(w: seq<int>, target: uint128) {
    && Weights(w) && w != [] && target > 0
    && (forall k :: 0 <= k < |w| ==> w[k] > 0)
    && (forall k :: 0 <= k < |w| - 1 ==> w[k] * target <= U128_MAX)
  }

  lemma RoutablePositive(w: seq<int>, target: uint128)
    requires Routable(w, target)
    ensures Sum(w) > 0
  {
    SumPositive(w);
  }

  /** A part whose share rounds down to nothing. */
  predicate Vanishes(w: seq<int>, target: uint128, k: nat)
    requires k < |w|
  {
    w[k] * target < Sum(w)
  }

  /** How many of the first k parts vanish. */
  function Vanishing(w: seq<int>, target: uint128, k: nat): nat
    requires k <= |w|
  {
    if k == 0 then 0 else Vanishing(w, target, k - 1) + if Vanishes(w, target, k - 1) then 1 else 0
  }

  lemma {:induction false} NoneVanish(w: seq<int>, target: uint128, k: nat)
    requires k <= |w|
    ensures Vanishing(w, target, k) == 0 <==> forall j :: 0 <= j < k ==> !Vanishes(w, target, j)
  {
    hide Vanishes;
    if k == 0 {
    } else {
      NoneVanish(w, target, k - 1);
    }
  }

  /** Raising adds one unit to a vanishing share and nothing to any other. */
  lemma RaisedByOne(w: seq<int>, target: uint128, k: nat)
    requires Routable(w, target) && k < |w| - 1
    ensures 0 < w[k] <= Sum(w)
    ensures RaisedShare(w[k], target, Sum(w)) == Rescale.Share(w, target, k) + if Vanishes(w, target, k) then 1 else 0
  {
    WeightsSum(w, k);
    MulLe(1, w[k], target);
    DivBound(w[k] * target, Sum(w));
    if Vanishes(w, target, k) {
      DivUnique(w[k] * target, Sum(w), 0);
    } else {
      RaisedShareIsShare(w[k], target, Sum(w));
    }
  }

  /** The raised shares of the first k parts hand out one unit more for each part that vanishes. */
  lemma {:induction false} RaisedSharesSum(w: seq<int>, target: uint128, k: nat)
    requires Routable(w, target) && k < |w| && Sum(w) > 0
    ensures Sum(RaisedShares(w, target, k)) == Sum(Rescale.Shares(w, target, k)) + Vanishing(w, target, k)
    ensures RaisedShares(w, target, k) == Rescale.Shares(w, target, k) <==> Vanishing(w, target, k) == 0
  {
    hide RaisedShare, Rescale.Share, Vanishes, Routable, RaisedShares, Rescale.Shares, Vanishing;
    WeightsFit(w, target);
    if k == 0 {
      NoShares(w, target);
    } else {
      RaisedSharesSum(w, target, k - 1);
      RaisedByOne(w, target, k - 1);
      Rescale.SharesStep(w, target, k - 1);
      SharesStep(w, target, k - 1);
      VanishingStep(w, target, k - 1);
      SameEnd(RaisedShares(w, target, k - 1), RaisedShare(w[k - 1], target, Sum(w)),
              Rescale.Shares(w, target, k - 1), Rescale.Share(w, target, k - 1));
    }
  }

  lemma NoShares(w: seq<int>, target: uint128)
    requires Weights(w) && Sum(w) > 0
    ensures RaisedShares(w, target, 0) == Rescale.Shares(w, target, 0) == [] && Vanishing(w, target, 0) == 0
  {
  }

  lemma VanishingStep(w: seq<int>, target: uint128, k: nat)
    requires k < |w|
    ensures Vanishing(w, target, k + 1) == Vanishing(w, target, k) + if Vanishes(w, target, k) then 1 else 0
  {
  }

  lemma WeightsFit(w: seq<int>, target: uint128)
    requires Routable(w, target)
    ensures Weights(w) && Sum(w) > 0 && w != [] && target > 0
  {
    SumPositive(w);
  }

  lemma SameEnd(a: seq<int>, x: int, b: seq<int>, y: int)
    ensures a + [x] == b + [y] <==> a == b && x == y
  {
    if a + [x] == b + [y] {
      assert |a + [x]| == |b + [y]|;
      assert (a + [x])[..|a|] == a && (b + [y])[..|b|] == b;
      assert (a + [x])[|a|] == x && (b + [y])[|b|] == y;
    }
  }

  /** What the contract would give the last part. */
  ghost function LastPart(w: seq<int>, target: uint128): nat
    requires Routable(w, target)
  {
    RoutablePositive(w, target);
    Rescale.AllocationPositivity(w, target);
    Rescale.Allocation(w, target)[|w| - 1]
  }

  lemma LastPartIsRest(w: seq<int>, target: uint128)
    requires Routable(w, target) && Sum(w) > 0
    ensures LastPart(w, target) == target - Sum(Rescale.Shares(w, target, |w| - 1))
    ensures Sum(w) != target ==>
              Normalized(w, target) == RaisedShares(w, target, |w| - 1)
                                       + [SaturatingSub(target, Sum(RaisedShares(w, target, |w| - 1)))]
    ensures Sum(RaisedShares(w, target, |w| - 1)) == target - LastPart(w, target) + Vanishing(w, target, |w| - 1)
    ensures LastPart(w, target) > 0
  {
    hide RaisedShare, Rescale.Share, Vanishes;
    RaisedSharesSum(w, target, |w| - 1);
    Rescale.AllocationPositivity(w, target);
  }

  /** The bot splits exactly as the contract would if and only if no part but the last vanishes. */
  lemma NormalizedIsAllocation(w: seq<int>, target: uint128)
    requires Routable(w, target)
    ensures Sum(w) > 0
    ensures Normalized(w, target) == Rescale.Allocation(w, target) <==> forall k :: 0 <= k < |w| - 1 ==> w[k] * target >= Sum(w)
  {
    hide Normalized, Rescale.Allocation, Routable, Vanishing;
    RoutablePositive(w, target);
    NoneVanish(w, target, |w| - 1);
    SplitsAgree(w, target);
    if Sum(w) == target {
      NothingToSplit(w, target);
    }
    assert forall k :: 0 <= k < |w| - 1 ==> (Vanishes(w, target, k) <==> w[k] * target < Sum(w));
  }

  lemma SplitsAgree(w: seq<int>, target: uint128)
    requires Routable(w, target)
    ensures Sum(w) > 0
    ensures Sum(w) != target ==> (Normalized(w, target) == Rescale.Allocation(w, target) <==> Vanishing(w, target, |w| - 1) == 0)
  {
    hide RaisedShare, Rescale.Share, Routable, Normalized, Vanishing, Vanishes, RaisedShares, Rescale.Shares, LastPart;
    WeightsFit(w, target);
    LastPartIsRest(w, target);
    RaisedSharesSum(w, target, |w| - 1);
    var raised, shares := RaisedShares(w, target, |w| - 1), Rescale.Shares(w, target, |w| - 1);
    SameEnd(raised, SaturatingSub(target, Sum(raised)), shares, target - Sum(shares));
  }

  /** Weights that already sum to the target are left alone, by both sides, and none vanishes. */
  lemma NothingToSplit(w: seq<int>, target: uint128)
    requires Routable(w, target) && Sum(w) == target
    ensures Normalized(w, target) == w == Rescale.Allocation(w, target)
    ensures forall k :: 0 <= k < |w| ==> w[k] * target >= Sum(w)
  {
    Rescale.AllocationIdentity(w);
    forall k | 0 <= k < |w|
      ensures w[k] * target >= target
    {
      MulLe(1, w[k], target);
    }
  }

  /** The normalized amounts sum to the target if and only if the contract's last part can spare one unit for each part
      that vanishes. */
  lemma NormalizedSum(w: seq<int>, target: uint128)
    requires Routable(w, target) && Sum(w) != target
    ensures Sum(w) > 0
    ensures Sum(Normalized(w, target)) == target <==> Vanishing(w, target, |w| - 1) <= LastPart(w, target)
    ensures Normalized(w, target)[|w| - 1] == SaturatingSub(LastPart(w, target), Vanishing(w, target, |w| - 1))
  {
    hide RaisedShare, Rescale.Share, Vanishes, Normalized, LastPart;
    RoutablePositive(w, target);
    LastPartIsRest(w, target);
    NormalizedTotal(w, target);
  }

  lemma NormalizedFront(w: seq<int>, target: uint128)
    requires Routable(w, target) && Sum(w) != target
    ensures Weights(w) && forall k :: 0 <= k < |w| - 1 ==> Normalized(w, target)[k] > 0
  {
    hide RaisedShare, RaisedShares, LastPart, Vanishing, Rescale.Shares;
    RoutablePositive(w, target);
    RaisedSharesRange(w, target, |w| - 1);
    LastPartIsRest(w, target);
  }

  /** Without a target nothing changes; and of weights that are all zero, a single one takes the whole target and several stay. */
  lemma WithoutWeights(w: seq<int>, target: uint128)
    requires Weights(w)
    ensures target == 0 ==> Normalized(w, target) == w
    ensures (forall k :: 0 <= k < |w| ==> w[k] == 0) ==> Normalized(w, target) == if |w| == 1 then [target] else w
  {
    if forall k :: 0 <= k < |w| ==> w[k] == 0 {
      ZerosSum(w);
    }
  }

  lemma {:induction false} ZerosSum(w: seq<int>)
    requires forall k :: 0 <= k < |w| ==> w[k] == 0
    ensures Sum(w) == 0
  {
    if w != [] {
      ZerosSum(w[..|w| - 1]);
    }
  }

  /** All amounts are positive and sum to the target, as the contract demands of the out leg, if and only if the weights
      already did or the last part keeps at least one unit of its own. */
  lemma NormalizedIsAccepted(w: seq<int>, target: uint128)
    requires Routable(w, target)
    ensures Sum(w) > 0
    ensures var a := Normalized(w, target);
            Sum(a) == target && (forall k :: 0 <= k < |a| ==> a[k] > 0) <==>
            Sum(w) == target || Vanishing(w, target, |w| - 1) < LastPart(w, target)
  {
    hide Normalized, LastPart, Vanishing;
    RoutablePositive(w, target);
    if Sum(w) != target {
      NormalizedSum(w, target);
      NormalizedFront(w, target);
    } else {
      NothingToSplit(w, target);
    }
  }

  /** The weight total and every raised share stay within `u128`. */
  ghost predicate TotalsFit(w: seq<int>, target: uint128) {
    Sum(w) <= U128_MAX && target < U128_MAX
  }

  // ----- In place -----

  /** `normalize_sub_order_amounts`: rewrites the sub-order amounts in place. The
      correction for an excess at its end never changes anything. */
  method NormalizeSubOrderAmounts(amounts: array<uint128>, target: uint128)
    requires TotalsFit(amounts[..], target)
    modifies amounts
    ensures Weights(old(amounts[..])) && amounts[..] == Normalized(old(amounts[..]), target)
  {
    hide RaisedShare, RaisedShares;
    ghost var w: seq<int> := amounts[..];
    if amounts.Length == 0 || target == 0 {
      return;
    }
    var current := SumAmounts(amounts);
    if current == target {
      return;
    }
    WeightsSum(w, 0);
    if current == 0 {
      if amounts.Length == 1 {
        amounts[0] := target;
      }
      return;
    }
    RescaleInPlace(amounts, target, current);
    TrimExcess(amounts, target, w);
  }

  /** The rewriting loop of the normalization. */
  method RescaleInPlace(amounts: array<uint128>, target: uint128, current: nat)
    requires amounts.Length > 0 && target > 0
    requires TotalsFit(amounts[..], target)
    requires 0 < current == Sum(amounts[..]) != target
    modifies amounts
    ensures Weights(old(amounts[..])) && amounts[..] == Normalized(old(amounts[..]), target)
  {
    hide RaisedShare, RaisedShares, Midway, Normalized, Sum, Weights;
    ghost var w: seq<int> := amounts[..];
    assert Weights(w) by {
      WeightsIn(amounts[..]);
    }
    var n := amounts.Length;
    var given: nat := 0;
    MidwayStart(w, target);
    for i := 0 to n
      invariant given == Sum(RaisedShares(w, target, if i < n then i else n - 1))
      invariant i < n ==> amounts[..] == Midway(w, target, i)
      invariant i == n ==> amounts[..] == Normalized(w, target)
    {
      assert amounts[i] == amounts[..][i] == w[i];
      if i + 1 == n {
        MidwayLast(w, target);
        amounts[i] := SaturatingSub(target, given);
      } else {
        MidwayNext(w, target, i);
        var scaled := RaisedShare(amounts[i], target, current);
        amounts[i] := scaled;
        given := given + scaled;
      }
    }
  }

  /** The amounts before step i: the shares so far, and the weights still to come. */
  ghost function Midway(w: seq<int>, target: uint128, i: nat): (a: seq<int>)
    requires Weights(w) && Sum(w) > 0 && i <= |w|
    ensures |a| == |w| && forall k :: i <= k < |w| ==> a[k] == w[k]
  {
    RaisedShares(w, target, i) + w[i..]
  }

  lemma WeightsIn(amounts: seq<uint128>)
    ensures Weights(amounts)
  {
  }

  lemma MidwayStart(w: seq<int>, target: uint128)
    requires Weights(w) && Sum(w) > 0
    ensures Midway(w, target, 0) == w && Sum(RaisedShares(w, target, 0)) == 0
  {
  }

  lemma MidwayNext(w: seq<int>, target: uint128, i: nat)
    requires Weights(w) && i + 1 < |w| && Sum(w) > 0
    ensures 0 <= w[i] <= Sum(w)
    ensures var share := RaisedShare(w[i], target, Sum(w));
            && share <= target + 1
            && Midway(w, target, i + 1) == Midway(w, target, i)[i := share]
            && Sum(RaisedShares(w, target, i + 1)) == Sum(RaisedShares(w, target, i)) + share
  {
    hide RaisedShare, RaisedShares, Sum;
    WeightsSum(w, i);
    RaisedShareBound(w[i], target, Sum(w));
    SharesStep(w, target, i);
  }

  lemma MidwayLast(w: seq<int>, target: uint128)
    requires Weights(w) && w != [] && target > 0 && 0 < Sum(w) != target
    ensures var given := Sum(RaisedShares(w, target, |w| - 1));
            Normalized(w, target) == Midway(w, target, |w| - 1)[|w| - 1 := SaturatingSub(target, given)]
  {
    hide RaisedShare, RaisedShares, Sum;
  }

  lemma SharesStep(w: seq<int>, target: uint128, k: nat)
    requires Weights(w) && k < |w| && 0 <= w[k] <= Sum(w) && Sum(w) > 0
    ensures RaisedShares(w, target, k + 1) == RaisedShares(w, target, k) + [RaisedShare(w[k], target, Sum(w))]
    ensures Sum(RaisedShares(w, target, k + 1)) == Sum(RaisedShares(w, target, k)) + RaisedShare(w[k], target, Sum(w))
  {
    SumAppend(RaisedShares(w, target, k), RaisedShare(w[k], target, Sum(w)));
  }

  /** The correction at the end of the normalization: it finds no excess it could take back. */
  method TrimExcess(amounts: array<uint128>, target: uint128, ghost w: seq<int>)
    requires amounts.Length > 0 && target > 0 && Weights(w) && |w| == amounts.Length && 0 < Sum(w) != target
    requires amounts[..] == Normalized(w, target)
    modifies amounts
    ensures amounts[..] == old(amounts[..])
  {
    hide RaisedShare, RaisedShares;
    NormalizedTotal(w, target);
    var finalSum := SumAmounts(amounts);
    if finalSum > target {
      var excess := finalSum - target;
      var last := amounts.Length - 1;
      assert amounts[last] == amounts[..][last] == 0;
      amounts[last] := SaturatingSub(amounts[last], excess);
    }
  }

  method SumAmounts(amounts: array<uint128>) returns (total: nat)
    ensures total == Sum(amounts[..])
  {
    total := 0;
    for i := 0 to amounts.Length
      invariant total == Sum(amounts[..i])
    {
      SumTake(amounts[..], i);
      assert amounts[..][..i] == amounts[..i] && amounts[..][..i + 1] == amounts[..i + 1];
      total := total + amounts[i];
    }
    assert amounts[..amounts.Length] == amounts[..];
  }

  // ----- Leg payloads -----

  function OrdersWith(orders: seq<SubOrder>, a: seq<uint128>): (r: seq<SubOrder>)
    requires |a| == |orders|
    ensures |r| == |orders| && forall k :: 0 <= k < |r| ==> r[k] == SubOrder(a[k], orders[k].expectedOut)
  {
    seq(|orders|, k requires 0 <= k < |orders| => SubOrder(a[k], orders[k].expectedOut))
  }

  /** The weight sent for one back part: the quoted bridge output when the legs pair up, never zero. */
  function BackWeight(outs: seq<SubOrder>, backs: seq<SubOrder>, k: nat): uint128
    requires k < |backs|
  {
    var quoted := if |outs| == |backs| && |outs| > 1 && outs[k].expectedOut > 0
                  then outs[k].expectedOut else backs[k].amountIn;
    if quoted == 0 then 1 else quoted
  }

  /** The back leg takes the out leg's quotes as weights where the legs pair up. */
  method QuotedWeights(out: seq<SubOrder>, legBack: seq<SubOrder>) returns (back: seq<SubOrder>)
    ensures |back| == |legBack|
    ensures forall k :: 0 <= k < |back| ==>
              back[k] == if |out| == |legBack| && |out| > 1 && out[k].expectedOut > 0
                         then legBack[k].(amountIn := out[k].expectedOut) else legBack[k]
  {
    back := legBack;
    if |out| == |back| && |out| > 1 {
      for k := 0 to |back|
        invariant |back| == |legBack|
        invariant forall j :: 0 <= j < k ==>
                    back[j] == if out[j].expectedOut > 0 then legBack[j].(amountIn := out[j].expectedOut) else legBack[j]
        invariant forall j :: k <= j < |back| ==> back[j] == legBack[j]
      {
        if out[k].expectedOut > 0 {
          back := back[k := back[k].(amountIn := out[k].expectedOut)];
        }
      }
    }
  }

  method AtLeastOne(quoted: seq<SubOrder>) returns (back: seq<SubOrder>)
    ensures |back| == |quoted|
    ensures forall k :: 0 <= k < |back| ==>
              back[k] == if quoted[k].amountIn == 0 then quoted[k].(amountIn := 1) else quoted[k]
  {
    back := quoted;
    for k := 0 to |back|
      invariant |back| == |quoted|
      invariant forall j :: 0 <= j < k ==>
                  back[j] == if quoted[j].amountIn == 0 then quoted[j].(amountIn := 1) else quoted[j]
      invariant forall j :: k <= j < |back| ==> back[j] == quoted[j]
    {
      if back[k].amountIn == 0 {
        back := back[k := back[k].(amountIn := 1)];
      }
    }
  }

  /** `prepare_round_trip_routes`, from the `u128` value of the input amount. */
  method PrepareRoundTripRoutes(amountIn: uint128, legOut: seq<SubOrder>, legBack: seq<SubOrder>)
    returns (out: seq<SubOrder>, back: seq<SubOrder>)
    requires TotalsFit(OrderAmounts(legOut), amountIn)
    ensures Weights(OrderAmounts(legOut)) && OrderAmounts(out) == Normalized(OrderAmounts(legOut), amountIn)
    ensures |out| == |legOut| && |back| == |legBack|
    ensures forall k :: 0 <= k < |out| ==> out[k].expectedOut == legOut[k].expectedOut
    ensures forall k :: 0 <= k < |back| ==> back[k] == legBack[k].(amountIn := BackWeight(legOut, legBack, k))
    ensures |legOut| == |legBack| > 1 ==>
              forall k :: 0 <= k < |back| && legOut[k].expectedOut > 0 ==> back[k].amountIn == legOut[k].expectedOut
    ensures forall k :: 0 <= k < |back| && (|legOut| == |legBack| > 1 ==> legOut[k].expectedOut == 0) ==>
              back[k].amountIn == if legBack[k].amountIn > 0 then legBack[k].amountIn else 1
    ensures forall k :: 0 <= k < |back| ==> back[k].amountIn > 0
  {
    var amounts := new uint128[|legOut|](k requires 0 <= k < |legOut| => legOut[k].amountIn);
    assert amounts[..] == OrderAmounts(legOut);
    NormalizeSubOrderAmounts(amounts, amountIn);
    out := OrdersWith(legOut, amounts[..]);
    assert OrderAmounts(out) == amounts[..];

    back := QuotedWeights(out, legBack);
    back := AtLeastOne(back);
  }

  /** The prepared out leg passes the contract's positivity and exact-sum checks if and only if the quoted amounts already
      sum to the input, or the parts that vanish are fewer than the units of the contract's last part. */
  lemma PreparedOutPassesSumCheck(amountIn: int128, legOut: seq<SubOrder>)
    requires amountIn > 0 && Routable(OrderAmounts(legOut), amountIn)
    ensures var w := OrderAmounts(legOut);
            && Sum(w) > 0
            && var a := Normalized(w, amountIn);
               Sum(a) == amountIn && (forall k :: 0 <= k < |a| ==> a[k] > 0) <==>
               Sum(w) == amountIn || Vanishing(w, amountIn, |w| - 1) < LastPart(w, amountIn)
  {
    hide Normalized, Vanishing, LastPart;
    NormalizedIsAccepted(OrderAmounts(legOut), amountIn);
  }
}
