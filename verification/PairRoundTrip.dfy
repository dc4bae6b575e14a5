// A round trip out and back through one Soroswap pair cannot succeed.

module PairRoundTrip {
  import opened AggregatorModel
  import opened Base
  import opened Ledger
  import Rescale
  import Settlement
  import Soroswap

  predicate ZeroForOne(step: SwapStep) {
    step.inIdx == 0 && step.outIdx == 1
  }

  /** A pair with the given reserves that pays exactly the quote. */
  function PairReply(step: SwapStep, amountIn: int128, reserveIn: int128, reserveOut: int128): Reply {
    var out := Soroswap.AmountOut(amountIn, reserveIn, reserveOut);
    if ZeroForOne(step) then Answers(reserveIn, reserveOut, 0, out, 0) else Answers(reserveOut, reserveIn, 0, out, 0)
  }

  lemma PairStepQuotes(c: Chain, user: Address, step: SwapStep, amountIn: int128, hop: uint32,
                       reserveIn: int128, reserveOut: int128)
    requires step.dexType.SoroswapPair? && step.tokenIn != step.tokenOut
    requires var reply := PairReply(step, amountIn, reserveIn, reserveOut);
             Step(c, user, step, amountIn, hop, reply).Ok?
    ensures var reply := PairReply(step, amountIn, reserveIn, reserveOut);
            Step(c, user, step, amountIn, hop, reply).value.1 == Soroswap.AmountOut(amountIn, reserveIn, reserveOut)
  {
    hide Soroswap.AmountOut, Transfer, Balance;
  }

  lemma SinglePairQuotes(c: Chain, user: Address, route: SubRoute, base: uint32, replies: seq<Reply>, first: nat,
                         reserveIn: int128, reserveOut: int128)
    requires |route.steps| == 1 && route.steps[0].dexType.SoroswapPair?
    requires ReplyAt(replies, first) == PairReply(route.steps[0], route.amountIn, reserveIn, reserveOut)
    requires SubRoutes(c, user, [route], base, replies, first).Ok?
    ensures SubRoutes(c, user, [route], base, replies, first).value.1
            == Soroswap.AmountOut(route.amountIn, reserveIn, reserveOut)
  {
    hide Step, PairReply;
    var c1, out := Settlement.RoutesUnroll(c, user, [route], 0, 0, base, replies, first);
    var c2, out2 := Settlement.HopsUnroll(c, user, route.steps, 0, route.amountIn, base, replies, first);
    PairStepQuotes(c, user, route.steps[0], route.amountIn, SaturatingAdd32(base, ClampToU32(0)), reserveIn, reserveOut);
  }

  lemma SingleScaled(route: SubRoute, total: int128)
    requires Rescale.ScaleSubRoutesToTotal([route], total).Ok?
    ensures Rescale.ScaleSubRoutesToTotal([route], total).value == [SubRoute(total, route.steps)]
  {
    hide Rescale.ScaleSubRoutesToTotal;
    Rescale.ScaledRoutesAreExact([route], total);
    var scaled := Rescale.ScaleSubRoutesToTotal([route], total).value;
    var w := Amounts(scaled);
    assert w == [w[0]];
    SumAppend([], w[0]);
    assert [] + [w[0]] == w;
  }

  /** However the pair's reserves stand, as long as it can hold the input: routed out and back through
      the same pair, a round trip returns less than it took in and is therefore rejected. */
  lemma OnePairRoundTripFails(c: Chain, auth: set<Address>, user: Address, base: Address, bridge: Address, amountIn: int128,
                              out: SwapStep, back: SwapStep, weight: int128, minOut: int128, replies: seq<Reply>,
                              reserveIn: int128, reserveOut: int128)
    requires out.dexType.SoroswapPair? && back.dexType.SoroswapPair? && ZeroForOne(out) != ZeroForOne(back)
    requires reserveIn > 0 && reserveOut > 0 && reserveIn + amountIn <= I128_MAX && amountIn > 0
    requires var bought := Soroswap.AmountOut(amountIn, reserveIn, reserveOut);
             && ReplyAt(replies, 0) == PairReply(out, amountIn, reserveIn, reserveOut)
             && ReplyAt(replies, 1) == PairReply(back, bought, reserveOut - bought, reserveIn + amountIn)
    ensures RoundTrip(c, auth, user, base, bridge, amountIn, [SubRoute(amountIn, [out])], [SubRoute(weight, [back])],
                      minOut, replies).Err?
  {
    hide RoundTrip, Soroswap.AmountOut, PairReply, SubRoutes, Rescale.ScaleSubRoutesToTotal, Transfer;
    var legOut, legBack := [SubRoute(amountIn, [out])], [SubRoute(weight, [back])];
    if RoundTrip(c, auth, user, base, bridge, amountIn, legOut, legBack, minOut, replies).Ok? {
      var (c', total) := RoundTrip(c, auth, user, base, bridge, amountIn, legOut, legBack, minOut, replies).value;
      var r := Settlement.RoundTripUnroll(c, auth, user, base, bridge, amountIn, legOut, legBack, minOut, replies, c', total);
      SinglePairQuotes(r.pulled, user, legOut[0], 0, replies, 0, reserveIn, reserveOut);
      SingleScaled(legBack[0], r.bridgeTotal);
      assert HopsBefore(legOut, |legOut|) == HopsBefore(legOut, 0) + 1 == 1;
      SinglePairQuotes(r.bridged, user, r.scaled[0], r.hops, replies, 1, reserveOut - r.bridgeTotal, reserveIn + amountIn);
      Soroswap.ThereAndBackLoses(amountIn, reserveIn, reserveOut);
      assert false;
    }
  }
}
