// From the bot's encoder to the leg rows: one round trip seen through both of the indexer's sources.

module LegAgreement {
  import opened AggregatorModel
  import opened Base
  import opened Codec
  import opened LegEvents
  import opened LegStore
  import opened Ledger
  import opened Legs
  import opened Normalize
  import opened OrderEvents
  import Settlement

  /** The rows of a trade agree with its parsed call: the record made of the events it published has the call's fields, and
      enriched from the call it has the hops of the call in order, each with the input the chain measured, through replays. */
  ghost predicate Agrees(published: seq<AggregatorEvent>, parsed: Invocation, txHash: string, ledger: uint32, closedAt: CloseTime) {
    && (forall i :: 0 <= i < |published| ==> Publishable(published[i]))
    && var b := BundleOf(Published(published, txHash, ledger, closedAt));
       && b.Ok? && b.value.Some? && RecordOf(b.value.value).Some?
       && var record := RecordOf(b.value.value).value;
          && record.parsed.(legs := []) == parsed.(legs := [])
          && EnrichedFrom(record.parsed.legs, parsed.legs, published)
          && SurvivesReplay(record.parsed.legs, parsed.legs)
  }

  ghost predicate EnrichedFrom(stored: seq<ParsedLeg>, legs: seq<ParsedLeg>, published: seq<AggregatorEvent>) {
    var rows := Replaced(stored, legs);
    && |published| == |rows| + 1 && |rows| == |legs|
    && forall i :: 0 <= i < |rows| ==> published[i].Leg? && rows[i] == Settled(legs[i], published[i])
  }

  lemma SummaryAgrees(legs: seq<AggregatorEvent>, done: AggregatorEvent, parsed: Invocation, txHash: string, ledger: uint32,
                      closedAt: CloseTime)
    requires (forall i :: 0 <= i < |legs| ==> legs[i].Leg?) && !done.Leg? && Publishable(done)
    requires parsed == Announced(done, parsed.legs) && SurvivesReplay(EventLegs(legs), parsed.legs)
    requires var rows := Replaced(EventLegs(legs), parsed.legs);
             |legs| == |parsed.legs| == |rows| && forall i :: 0 <= i < |rows| ==> rows[i] == Settled(parsed.legs[i], legs[i])
    ensures Agrees(legs + [done], parsed, txHash, ledger, closedAt)
  {
    hide Replaced, BundleOf, RecordOf, EventLegs, SurvivesReplay;
    RecordOfCall(legs, done, txHash, ledger, closedAt);
    var published := legs + [done];
    assert forall i :: 0 <= i < |legs| ==> published[i] == legs[i];
  }

  /** A round trip the bot encodes and the aggregator executes: its rows agree with the call the indexer parses. */
  lemma EncodedRoundTripAgrees(aggregator: Address, user: Address, base: Address, bridge: Address, amountIn: int128, out: LegQuote,
                               back: LegQuote, minOut: int128, call: InvokeArgs, c: Chain, auth: set<Address>,
                               replies: seq<AggregatorModel.Reply>, c': Chain, total: int128, txHash: string, ledger: uint32,
                               closedAt: CloseTime)
    returns (published: seq<AggregatorEvent>, parsed: Invocation)
    requires CallArgs(aggregator, user, base, bridge, amountIn, out, back, minOut) == Ok(call)
    requires |out.orders| == |out.stepSets| && |back.orders| == |back.stepSets| && Encodable(out.stepSets) && Encodable(back.stepSets)
    requires RoundTrip(c, auth, user, base, bridge, amountIn, RoutesOf(out.orders, out.stepSets), RoutesOf(back.orders, back.stepSets),
                       minOut, replies) == Ok((c', total))
    ensures c'.log == c.log + published
    ensures ParseRoundTrip(call.args, Some(total)) == Ok(parsed)
    ensures Agrees(published, parsed, txHash, ledger, closedAt)
  {
    hide RoundTrip, CallArgs, RoutesOf, RoundTripLegs, Replaced, Depth, Fits, ParseRoundTrip, Encodable, EventLegs, Agrees, SurvivesReplay,
         Sources, AllDexTypes;
    var legOut, legBack := RoutesOf(out.orders, out.stepSets), RoutesOf(back.orders, back.stepSets);
    PathsAreShort(out);
    PathsAreShort(back);
    var legs, depth := RoundTripLegsAgree(c, auth, user, base, bridge, amountIn, legOut, legBack, minOut, replies, c', total);
    var done := RoundTripDone(user, base, bridge, amountIn, total, depth, |legOut| > 1 || |legBack| > 1);
    published := legs + [done];
    assert c'.log == c.log + published;
    CallComesBack(aggregator, user, base, bridge, amountIn, out, back, minOut, Some(total), call);
    parsed := ParseRoundTrip(call.args, Some(total)).value;
    SummaryAgrees(legs, done, parsed, txHash, ledger, closedAt);
  }

  lemma PathsAreShort(leg: LegQuote)
    requires |leg.orders| == |leg.stepSets| && Encodable(leg.stepSets)
    ensures ShortPaths(RoutesOf(leg.orders, leg.stepSets)) && |RoutesOf(leg.orders, leg.stepSets)| == |leg.orders|
  {
  }

  /** A swap the aggregator executes: its rows agree with the call its arguments parse to, the total input included. */
  lemma ExecutedSwapAgrees(c: Chain, auth: set<Address>, user: Address, tokenIn: Address, tokenOut: Address, routes: seq<SubRoute>,
                           minOut: int128, replies: seq<AggregatorModel.Reply>, c': Chain, out: int128, txHash: string,
                           ledger: uint32, closedAt: CloseTime)
    returns (published: seq<AggregatorEvent>, parsed: Invocation)
    requires ShortPaths(routes) && |routes| <= U32_MAX
    requires Swap(c, auth, user, tokenIn, tokenOut, routes, minOut, replies) == Ok((c', out))
    ensures c'.log == c.log + published
    ensures ParseSwapCall(SwapArgs(user, tokenIn, tokenOut, routes, minOut), Some(out)) == Ok(parsed)
    ensures Agrees(published, parsed, txHash, ledger, closedAt)
  {
    hide Swap, RouteLegs, Replaced, Fits, ParseSwapCall, SwapArgs, EventLegs, Amounts, Sum, Agrees, SurvivesReplay;
    var legs, totalIn := SwapLegsAgree(c, auth, user, tokenIn, tokenOut, routes, minOut, replies, c', out);
    AcceptedAmounts(c, auth, user, tokenIn, tokenOut, routes, minOut, replies, c', out);
    var done := SwapDone(user, tokenIn, tokenOut, totalIn, out, |routes|);
    published := legs + [done];
    assert c'.log == c.log + published;
    SwapCallComesBack(user, tokenIn, tokenOut, routes, minOut, Some(out));
    parsed := ParseSwapCall(SwapArgs(user, tokenIn, tokenOut, routes, minOut), Some(out)).value;
    SummaryAgrees(legs, done, parsed, txHash, ledger, closedAt);
  }

  /** The amounts of an executed swap are positive and their sum is representable. */
  lemma AcceptedAmounts(c: Chain, auth: set<Address>, user: Address, tokenIn: Address, tokenOut: Address, routes: seq<SubRoute>,
                        minOut: int128, replies: seq<AggregatorModel.Reply>, c': Chain, out: int128)
    requires Swap(c, auth, user, tokenIn, tokenOut, routes, minOut, replies) == Ok((c', out))
    ensures forall k :: 0 <= k < |routes| ==> routes[k].amountIn > 0
    ensures 0 <= Sum(Amounts(routes)) <= I128_MAX
  {
    hide Swap, SubRoutes, Transfer, Sum, Amounts;
    var pulled, swapped, paid, hops := Settlement.SwapUnroll(c, auth, user, tokenIn, tokenOut, routes, minOut, replies, c', out);
    Settlement.RoutesPositive(routes, tokenIn, tokenOut);
  }

  // ----- The prepared out leg at the contract -----

  /** The amounts of the contract's routes are the prepared ones, as long as those are signed amounts. */
  lemma RouteAmounts(out: seq<SubOrder>, stepSets: seq<seq<ArbStep>>)
    requires |out| == |stepSets| && Encodable(stepSets) && forall k :: 0 <= k < |out| ==> out[k].amountIn <= I128_MAX
    ensures Amounts(RoutesOf(out, stepSets)) == OrderAmounts(out)
  {
    hide EncodableSteps, StepsOf;
    assert forall k :: 0 <= k < |out| ==> RoutesOf(out, stepSets)[k].amountIn == out[k].amountIn;
  }

  lemma SumAtLeast(w: seq<int>, k: nat)
    requires Weights(w) && k < |w|
    ensures w[k] <= Sum(w)
  {
    WeightsSum(w, k);
  }

  lemma RoutesValid(out: seq<SubOrder>, stepSets: seq<seq<ArbStep>>, base: Address, bridge: Address)
    requires |out| == |stepSets| && Encodable(stepSets) && forall k :: 0 <= k < |out| ==> out[k].amountIn <= I128_MAX
    requires forall k :: 0 <= k < |stepSets| ==> Leads(StepsOf(stepSets[k]), base, bridge)
    ensures ValidRoutes(RoutesOf(out, stepSets), base, bridge) <==> forall k :: 0 <= k < |out| ==> OrderAmounts(out)[k] > 0
  {
    hide Leads, EncodableSteps, StepsOf;
    var routes := RoutesOf(out, stepSets);
    assert forall k :: 0 <= k < |out| ==> (ValidRoute(routes[k], base, bridge) <==> OrderAmounts(out)[k] > 0);
  }

  /** The contract accepts the encoded routes for a total if and only if their unsigned amounts are positive and make it. */
  lemma RoutesValidate(out: seq<SubOrder>, stepSets: seq<seq<ArbStep>>, base: Address, bridge: Address, total: int128)
    requires out != [] && |out| == |stepSets| && Encodable(stepSets)
    requires forall k :: 0 <= k < |stepSets| ==> Leads(StepsOf(stepSets[k]), base, bridge)
    ensures var a := OrderAmounts(out);
            Validate(RoutesOf(out, stepSets), base, bridge) == Ok(total) <==>
            Sum(a) == total && (forall k :: 0 <= k < |a| ==> a[k] > 0)
  {
    hide Leads, EncodableSteps, StepsOf, Validate, Sum;
    var routes, a := RoutesOf(out, stepSets), OrderAmounts(out);
    Settlement.ValidateMeans(routes, base, bridge);
    if k :| 0 <= k < |out| && out[k].amountIn > I128_MAX {
      SumAtLeast(a, k);
      assert routes[k].amountIn < 0;
      assert !ValidRoute(routes[k], base, bridge);
    } else {
      hide RoutesOf, ValidRoutes, OrderAmounts;
      RouteAmounts(out, stepSets);
      RoutesValid(out, stepSets, base, bridge);
    }
  }

  /** The contract's validation accepts the prepared out leg, at exactly the input amount, if and only if the quoted amounts
      already sum to the input, or fewer parts vanish than the last part has units. */
  lemma PreparedLegValidates(amountIn: int128, legOut: seq<SubOrder>, out: seq<SubOrder>, stepSets: seq<seq<ArbStep>>,
                             base: Address, bridge: Address)
    requires amountIn > 0 && Routable(OrderAmounts(legOut), amountIn)
    requires OrderAmounts(out) == Normalized(OrderAmounts(legOut), amountIn) && |out| == |stepSets| && Encodable(stepSets)
    requires forall k :: 0 <= k < |stepSets| ==> Leads(StepsOf(stepSets[k]), base, bridge)
    ensures var w := OrderAmounts(legOut);
            && Sum(w) > 0
            && (Validate(RoutesOf(out, stepSets), base, bridge) == Ok(amountIn) <==>
                Sum(w) == amountIn || Vanishing(w, amountIn, |w| - 1) < LastPart(w, amountIn))
  {
    hide Normalized, Vanishing, LastPart, Routable, Leads, Encodable, Validate, Sum, OrderAmounts, RoutesOf;
    NormalizedIsAccepted(OrderAmounts(legOut), amountIn);
    NotEmpty(OrderAmounts(legOut), amountIn);
    RoutesValidate(out, stepSets, base, bridge, amountIn);
  }

  lemma NotEmpty(w: seq<int>, target: uint128)
    requires Routable(w, target)
    ensures w != []
  {
  }
}
