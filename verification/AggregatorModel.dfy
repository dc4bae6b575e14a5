// What one call of the aggregator does to the ledger, as functions of the state before
// it, the arguments, and the venues' replies; and what such a call keeps.

module AggregatorModel {
  import opened Base
  import opened Ledger
  import Rescale
  import Soroswap

  /** How the venue behind one hop behaves. `left` is the part of the input it does not take, `delivered` is what it pays
      out; `claimed` is the number it returns, which the Aquarius and Comet arms trust; the reserves are what a Soroswap pair
      reports. */
  datatype Reply = Fails | Answers(reserve0: int128, reserve1: int128, left: nat, delivered: nat, claimed: uint128)

  function ReplyAt(replies: seq<Reply>, k: nat): Reply {
    if k < |replies| then replies[k] else Fails
  }

  /** The arms that believe the venue's return value instead of measuring a balance. */
  predicate TrustsClaim(d: DexType) {
    d.Aquarius? || d.CometDex?
  }

  /** What a venue may leave of an input. The Soroswap arm hands the input over itself; the others authorize the transfer of
      exactly the input, once, except for Comet, which may spend any part of an approval. */
  predicate MayLeave(d: DexType, amountIn: int128, left: nat) {
    left == 0 || (!d.SoroswapPair? && left <= amountIn && (d.CometDex? || left == amountIn))
  }

  /** Addresses that cannot answer a venue call: the contracts of this system and the user. */
  function NotVenues(user: Address): set<Address> {
    {Aggregator, Escrow, Vault, user}
  }

  function PairQuote(step: SwapStep, amountIn: int128, reply: Reply): int128
    requires reply.Answers?
  {
    if step.inIdx == 0 && step.outIdx == 1 then Soroswap.AmountOut(amountIn, reply.reserve0, reply.reserve1)
    else Soroswap.AmountOut(amountIn, reply.reserve1, reply.reserve0)
  }

  // ----- Execution -----

  /** `execute_step_inner`: the venue takes its input, pays the output, and the arm reports a number. */
  function StepInner(c: Chain, user: Address, step: SwapStep, amountIn: int128, reply: Reply): Result<(Chain, int128)>
  {
    if reply.Fails? || step.dexId.Account? || step.dexId in NotVenues(user) then Err(Trap)
    else if step.dexType.SoroswapPair? && PairQuote(step, amountIn, reply) <= 0 then Ok((c, 0))
    else if !MayLeave(step.dexType, amountIn, reply.left) then Err(Trap)
    else
      var before := Balance(c, step.tokenOut, Aggregator);
      var taken :- Transfer(c, step.tokenIn, Aggregator, step.dexId, amountIn - reply.left);
      var paid :- Transfer(taken, step.tokenOut, step.dexId, Aggregator, reply.delivered);
      if TrustsClaim(step.dexType) then Ok((paid, WrapToI128(reply.claimed)))
      else Ok((paid, Balance(paid, step.tokenOut, Aggregator) - before))
  }

  /** `execute_step`: the hop and its `leg` event. */
  function Step(c: Chain, user: Address, step: SwapStep, amountIn: int128, hop: uint32, reply: Reply): Result<(Chain, int128)>
  {
    var (c1, out) :- StepInner(c, user, step, amountIn, reply);
    Ok((Emit(c1, Leg(hop, DexTag(step.dexType), step.dexId, step.tokenIn, amountIn)), out))
  }

  /** `execute_path` from hop i on, with `amount` in hand; hop j uses reply first + j. */
  function Hops(c: Chain, user: Address, steps: seq<SwapStep>, i: nat, amount: int128, base: uint32,
                replies: seq<Reply>, first: nat): Result<(Chain, int128)>
    requires i <= |steps|
    decreases |steps| - i
  {
    if i == |steps| then Ok((c, amount))
    else if steps[i].tokenIn == steps[i].tokenOut || steps[i].inIdx == steps[i].outIdx then
      Err(InAggregator(InvalidStep))
    else
      var (c1, out) :- Step(c, user, steps[i], amount, SaturatingAdd32(base, ClampToU32(i)), ReplyAt(replies, first + i));
      if out <= 0 then Err(InAggregator(ZeroStepOutput))
      else Hops(c1, user, steps, i + 1, out, base, replies, first)
  }

  function Path(c: Chain, user: Address, route: SubRoute, base: uint32, replies: seq<Reply>, first: nat): Result<(Chain, int128)> {
    if route.amountIn <= 0 then Err(InAggregator(InvalidAmount))
    else Hops(c, user, route.steps, 0, route.amountIn, base, replies, first)
  }

  /** The number of hops in the routes before route i. */
  function HopsBefore(routes: seq<SubRoute>, i: nat): nat
    requires i <= |routes|
  {
    if i == 0 then 0 else HopsBefore(routes, i - 1) + |routes[i - 1].steps|
  }

  /** `execute_sub_routes` from route i on, having collected `total`. */
  function Routes(c: Chain, user: Address, routes: seq<SubRoute>, i: nat, total: int128, base: uint32,
                  replies: seq<Reply>, first: nat): Result<(Chain, int128)>
    requires i <= |routes|
    decreases |routes| - i
  {
    if i == |routes| then Ok((c, total))
    else
      var (c1, out) :- Path(c, user, routes[i], base, replies, first + HopsBefore(routes, i));
      var total' :- CheckedAdd(total, out, InAggregator(ArithmeticOverflow));
      Routes(c1, user, routes, i + 1, total', base, replies, first)
  }

  /** The longest path among the first i routes. */
  function Depth(routes: seq<SubRoute>, i: nat): uint32
    requires i <= |routes|
  {
    if i == 0 then 0
    else
      var d := ClampToU32(|routes[i - 1].steps|);
      if d > Depth(routes, i - 1) then d else Depth(routes, i - 1)
  }

  /** All sub-routes from hop index `base`, and the hop counter after them. */
  function SubRoutes(c: Chain, user: Address, routes: seq<SubRoute>, base: uint32, replies: seq<Reply>, first: nat):
    Result<(Chain, int128, uint32)>
  {
    var (c1, total) :- Routes(c, user, routes, 0, 0, base, replies, first);
    if base + Depth(routes, |routes|) > U32_MAX then Err(InAggregator(ArithmeticOverflow))
    else Ok((c1, total, base + Depth(routes, |routes|)))
  }

  // ----- Validation -----

  function ConnectedFrom(steps: seq<SwapStep>, j: nat): bool
    requires 1 <= j
    decreases |steps| - j
  {
    j >= |steps| || (steps[j - 1].tokenOut == steps[j].tokenIn && ConnectedFrom(steps, j + 1))
  }

  function ValidateRoute(route: SubRoute, tokenIn: Address, tokenOut: Address, total: int128): Result<int128> {
    if route.amountIn <= 0 then Err(InAggregator(InvalidAmount))
    else
      var total' :- CheckedAdd(total, route.amountIn, InAggregator(ArithmeticOverflow));
      if route.steps == [] then Err(InAggregator(InvalidRoute))
      else if route.steps[0].tokenIn != tokenIn then Err(InAggregator(InvalidRoute))
      else if route.steps[|route.steps| - 1].tokenOut != tokenOut then Err(InAggregator(InvalidRoute))
      else if !ConnectedFrom(route.steps, 1) then Err(InAggregator(DisconnectedRoute))
      else Ok(total')
  }

  function ValidateFrom(routes: seq<SubRoute>, tokenIn: Address, tokenOut: Address, i: nat, total: int128): Result<int128>
    requires i <= |routes|
    decreases |routes| - i
  {
    if i == |routes| then Ok(total)
    else
      var total' :- ValidateRoute(routes[i], tokenIn, tokenOut, total);
      ValidateFrom(routes, tokenIn, tokenOut, i + 1, total')
  }

  /** `validate_sub_routes`. */
  function Validate(routes: seq<SubRoute>, tokenIn: Address, tokenOut: Address): Result<int128> {
    if routes == [] then Err(InAggregator(EmptyRoutes)) else ValidateFrom(routes, tokenIn, tokenOut, 0, 0)
  }

  /** A path of hops that leads from one token to another. */
  ghost predicate Leads(steps: seq<SwapStep>, tokenIn: Address, tokenOut: Address) {
    && steps != []
    && steps[0].tokenIn == tokenIn
    && steps[|steps| - 1].tokenOut == tokenOut
    && forall j :: 0 < j < |steps| ==> steps[j - 1].tokenOut == steps[j].tokenIn
  }

  ghost predicate ValidRoute(route: SubRoute, tokenIn: Address, tokenOut: Address) {
    route.amountIn > 0 && Leads(route.steps, tokenIn, tokenOut)
  }

  ghost predicate ValidRoutes(routes: seq<SubRoute>, tokenIn: Address, tokenOut: Address) {
    forall k :: 0 <= k < |routes| ==> ValidRoute(routes[k], tokenIn, tokenOut)
  }

  predicate Registered(venues: set<(uint32, Address)>, step: SwapStep) {
    (DexTag(step.dexType), step.dexId) in venues
  }

  /** `validate_registered_venues` accepts exactly these routes. */
  predicate AllRegistered(venues: set<(uint32, Address)>, routes: seq<SubRoute>) {
    forall i, j :: 0 <= i < |routes| && 0 <= j < |routes[i].steps| ==> Registered(venues, routes[i].steps[j])
  }

  // ----- Entry points -----

  /** `swap`. `auth` holds the addresses that authorized the call. */
  function Swap(c: Chain, auth: set<Address>, user: Address, tokenIn: Address, tokenOut: Address,
                routes: seq<SubRoute>, minOut: int128, replies: seq<Reply>): Result<(Chain, int128)>
  {
    if user !in auth then Err(Trap)
    else if tokenIn == tokenOut then Err(InAggregator(InvalidRoute))
    else if minOut <= 0 then Err(InAggregator(InvalidMinimumOut))
    else
      var totalIn :- Validate(routes, tokenIn, tokenOut);
      var c1 :- Transfer(c, tokenIn, user, Aggregator, totalIn);
      var (c2, totalOut, _) :- SubRoutes(c1, user, routes, 0, replies, 0);
      if totalOut < minOut then Err(InAggregator(OutputBelowMinimum))
      else
        var c3 :- Transfer(c2, tokenOut, Aggregator, user, totalOut);
        Ok((Emit(c3, SwapDone(user, tokenIn, tokenOut, totalIn, totalOut, |routes|)), totalOut))
  }

  /** `swap_restricted`: a swap over registered venues only. */
  function SwapRestricted(c: Chain, venues: set<(uint32, Address)>, auth: set<Address>, user: Address, tokenIn: Address,
                          tokenOut: Address, routes: seq<SubRoute>, minOut: int128, replies: seq<Reply>):
    Result<(Chain, int128)>
  {
    if !AllRegistered(venues, routes) then Err(InAggregator(VenueNotRegistered))
    else Swap(c, auth, user, tokenIn, tokenOut, routes, minOut, replies)
  }

  /** The checks `round_trip_swap` makes before it moves any money. */
  function RoundTripChecks(auth: set<Address>, user: Address, base: Address, bridge: Address, amountIn: int128,
                           legOut: seq<SubRoute>, legBack: seq<SubRoute>, minOut: int128): Result<int128>
  {
    if user !in auth then Err(Trap)
    else if amountIn <= 0 then Err(InAggregator(InvalidAmount))
    else if minOut < amountIn then Err(InAggregator(InvalidMinimumOut))
    else if base == bridge then Err(InAggregator(InvalidRoute))
    else
      var legOutIn :- Validate(legOut, base, bridge);
      var _ :- Validate(legBack, bridge, base);
      if legOutIn != amountIn then Err(InAggregator(InvalidAmount)) else Ok(legOutIn)
  }

  /** `round_trip_swap`. */
  function RoundTrip(c: Chain, auth: set<Address>, user: Address, base: Address, bridge: Address, amountIn: int128,
                     legOut: seq<SubRoute>, legBack: seq<SubRoute>, minOut: int128, replies: seq<Reply>):
    Result<(Chain, int128)>
  {
    var _ :- RoundTripChecks(auth, user, base, bridge, amountIn, legOut, legBack, minOut);
    var c1 :- Transfer(c, base, user, Aggregator, amountIn);
    var (c2, bridgeTotal, hops) :- SubRoutes(c1, user, legOut, 0, replies, 0);
    if bridgeTotal <= 0 then Err(InAggregator(ZeroStepOutput))
    else
      var scaled :- Rescale.ScaleSubRoutesToTotal(legBack, bridgeTotal);
      var (c3, baseTotal, depth) :- SubRoutes(c2, user, scaled, hops, replies, HopsBefore(legOut, |legOut|));
      if baseTotal < minOut then Err(InAggregator(OutputBelowMinimum))
      else
        var c4 :- Transfer(c3, base, Aggregator, user, baseTotal);
        Ok((Emit(c4, RoundTripDone(user, base, bridge, amountIn, baseTotal, depth, |legOut| > 1 || |legBack| > 1)),
            baseTotal))
  }
}
