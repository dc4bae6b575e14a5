// The aggregator contract: it changes the host's ledger step by step, and an entry point
// that fails leaves no trace.

module AggregatorContract {
  import opened AggregatorModel
  import opened Base
  import opened Ledger
  import Rescale

  class AggregatorContract {
    const host: Host
    /** Registered (venue type tag, pool) pairs. */
    var venues: set<(uint32, Address)>

    constructor (host: Host)
      ensures this.host == host && venues == {}
    {
      this.host := host;
      venues := {};
    }

    /** `set_venue`, once the administrator has authorized it. */
    method SetVenue(dexType: DexType, dexId: Address, allowed: bool)
      modifies this
      ensures venues == if allowed then old(venues) + {(DexTag(dexType), dexId)} else old(venues) - {(DexTag(dexType), dexId)}
    {
      if allowed {
        venues := venues + {(DexTag(dexType), dexId)};
      } else {
        venues := venues - {(DexTag(dexType), dexId)};
      }
    }

    method ValidateSubRoutes(tokenIn: Address, tokenOut: Address, routes: seq<SubRoute>) returns (r: Result<int128>)
      ensures r == Validate(routes, tokenIn, tokenOut)
    {
      if routes == [] {
        return Err(InAggregator(EmptyRoutes));
      }
      var total: int128 := 0;
      for i := 0 to |routes|
        invariant ValidateFrom(routes, tokenIn, tokenOut, 0, 0) == ValidateFrom(routes, tokenIn, tokenOut, i, total)
      {
        var steps := routes[i].steps;
        if routes[i].amountIn <= 0 {
          return Err(InAggregator(InvalidAmount));
        }
        var sum := CheckedAdd(total, routes[i].amountIn, InAggregator(ArithmeticOverflow));
        if sum.Err? {
          return Err(sum.error);
        }
        if steps == [] || steps[0].tokenIn != tokenIn || steps[|steps| - 1].tokenOut != tokenOut {
          return Err(InAggregator(InvalidRoute));
        }
        var previous := steps[0];
        for j := 1 to |steps|
          invariant previous == steps[j - 1]
          invariant ConnectedFrom(steps, 1) == ConnectedFrom(steps, j)
        {
          if previous.tokenOut != steps[j].tokenIn {
            return Err(InAggregator(DisconnectedRoute));
          }
          previous := steps[j];
        }
        total := sum.value;
      }
      return Ok(total);
    }

    method ValidateRegisteredVenues(routes: seq<SubRoute>) returns (ok: bool)
      ensures ok == AllRegistered(venues, routes)
    {
      for i := 0 to |routes|
        invariant forall k, j :: 0 <= k < i && 0 <= j < |routes[k].steps| ==> Registered(venues, routes[k].steps[j])
      {
        for j := 0 to |routes[i].steps|
          invariant forall m :: 0 <= m < j ==> Registered(venues, routes[i].steps[m])
        {
          if !Registered(venues, routes[i].steps[j]) {
            return false;
          }
        }
      }
      return true;
    }

    /** One hop. On an error the ledger is whatever it was when the hop failed. */
    method ExecuteStep(user: Address, step: SwapStep, amountIn: int128, hop: uint32, reply: Reply)
      returns (r: Result<int128>)
      modifies host
      ensures var spec := Step(old(host.State()), user, step, amountIn, hop, reply);
              && r.Ok? == spec.Ok?
              && (r.Ok? ==> spec.value == (host.State(), r.value))
              && (r.Err? ==> r.error == spec.error)
    {
      r := ExecuteStepInner(user, step, amountIn, reply);
      if r.Ok? {
        host.Publish(Leg(hop, DexTag(step.dexType), step.dexId, step.tokenIn, amountIn));
      }
    }

    method ExecuteStepInner(user: Address, step: SwapStep, amountIn: int128, reply: Reply) returns (r: Result<int128>)
      modifies host
      ensures var spec := StepInner(old(host.State()), user, step, amountIn, reply);
              && r.Ok? == spec.Ok?
              && (r.Ok? ==> spec.value == (host.State(), r.value))
              && (r.Err? ==> r.error == spec.error)
    {
      hide Transfer, Balance, PairQuote, MayLeave;
      if reply.Fails? || step.dexId.Account? || step.dexId in NotVenues(user) {
        return Err(Trap);
      }
      if step.dexType.SoroswapPair? && PairQuote(step, amountIn, reply) <= 0 {
        return Ok(0);
      }
      if !MayLeave(step.dexType, amountIn, reply.left) {
        return Err(Trap);
      }
      var before := Balance(host.State(), step.tokenOut, Aggregator);
      var taken := host.Move(step.tokenIn, Aggregator, step.dexId, amountIn - reply.left);
      if !taken {
        return Err(Trap);
      }
      var paid := host.Move(step.tokenOut, step.dexId, Aggregator, reply.delivered);
      if !paid {
        return Err(Trap);
      }
      if TrustsClaim(step.dexType) {
        return Ok(WrapToI128(reply.claimed));
      }
      return Ok(Balance(host.State(), step.tokenOut, Aggregator) - before);
    }

    method ExecutePath(user: Address, route: SubRoute, base: uint32, depth: uint32, replies: seq<Reply>, first: nat)
      returns (r: Result<int128>, maxDepth: uint32)
      modifies host
      ensures var spec := Path(old(host.State()), user, route, base, replies, first);
              && r.Ok? == spec.Ok?
              && (r.Ok? ==> spec.value == (host.State(), r.value))
              && (r.Err? ==> r.error == spec.error)
      ensures r.Ok? ==> maxDepth == if ClampToU32(|route.steps|) > depth then ClampToU32(|route.steps|) else depth
    {
      hide Step;
      maxDepth := depth;
      if route.amountIn <= 0 {
        return Err(InAggregator(InvalidAmount)), maxDepth;
      }
      var steps, current := route.steps, route.amountIn;
      for i := 0 to |steps|
        invariant Hops(old(host.State()), user, steps, 0, route.amountIn, base, replies, first)
                  == Hops(host.State(), user, steps, i, current, base, replies, first)
        invariant maxDepth == if ClampToU32(i) > depth then ClampToU32(i) else depth
      {
        if steps[i].tokenIn == steps[i].tokenOut {
          return Err(InAggregator(InvalidStep)), maxDepth;
        }
        if steps[i].inIdx == steps[i].outIdx {
          return Err(InAggregator(InvalidStep)), maxDepth;
        }
        var hopOffset := ClampToU32(i);
        var out := ExecuteStep(user, steps[i], current, SaturatingAdd32(base, hopOffset), ReplyAt(replies, first + i));
        if out.Err? {
          return out, maxDepth;
        }
        current := out.value;
        if current <= 0 {
          return Err(InAggregator(ZeroStepOutput)), maxDepth;
        }
        var hopDepth := SaturatingAdd32(hopOffset, 1);
        if hopDepth > maxDepth {
          maxDepth := hopDepth;
        }
      }
      return Ok(current), maxDepth;
    }

    method ExecuteSubRoutes(user: Address, routes: seq<SubRoute>, legCounter: uint32, replies: seq<Reply>, first: nat)
      returns (r: Result<int128>, counter: uint32)
      modifies host
      ensures var spec := SubRoutes(old(host.State()), user, routes, legCounter, replies, first);
              && r.Ok? == spec.Ok?
              && (r.Ok? ==> spec.value == (host.State(), r.value, counter))
              && (r.Err? ==> r.error == spec.error)
    {
      hide Path;
      counter := legCounter;
      var pathBase, maxDepth: uint32, total: int128, used := legCounter, 0, 0, 0;
      for i := 0 to |routes|
        invariant Routes(old(host.State()), user, routes, 0, 0, pathBase, replies, first)
                  == Routes(host.State(), user, routes, i, total, pathBase, replies, first)
        invariant maxDepth == Depth(routes, i) && used == HopsBefore(routes, i)
      {
        var out;
        out, maxDepth := ExecutePath(user, routes[i], pathBase, maxDepth, replies, first + used);
        if out.Err? {
          return out, counter;
        }
        var sum := CheckedAdd(total, out.value, InAggregator(ArithmeticOverflow));
        if sum.Err? {
          return sum, counter;
        }
        total := sum.value;
        used := used + |routes[i].steps|;
      }
      if pathBase + maxDepth > U32_MAX {
        return Err(InAggregator(ArithmeticOverflow)), counter;
      }
      counter := pathBase + maxDepth;
      return Ok(total), counter;
    }

    /** `swap`: commits, or fails and leaves the ledger as it was. */
    method Swap(auth: set<Address>, user: Address, tokenIn: Address, tokenOut: Address, routes: seq<SubRoute>,
                minOut: int128, replies: seq<Reply>) returns (r: Result<int128>)
      modifies host
      ensures var spec := AggregatorModel.Swap(old(host.State()), auth, user, tokenIn, tokenOut, routes, minOut, replies);
              && r.Ok? == spec.Ok?
              && (r.Ok? ==> spec.value == (host.State(), r.value))
              && (r.Err? ==> r.error == spec.error && host.State() == old(host.State()))
    {
      var before := host.State();
      r := SwapBody(auth, user, tokenIn, tokenOut, routes, minOut, replies);
      if r.Err? {
        host.Restore(before);
      }
    }

    method SwapBody(auth: set<Address>, user: Address, tokenIn: Address, tokenOut: Address, routes: seq<SubRoute>,
                    minOut: int128, replies: seq<Reply>) returns (r: Result<int128>)
      modifies host
      ensures var spec := AggregatorModel.Swap(old(host.State()), auth, user, tokenIn, tokenOut, routes, minOut, replies);
              && r.Ok? == spec.Ok?
              && (r.Ok? ==> spec.value == (host.State(), r.value))
              && (r.Err? ==> r.error == spec.error)
    {
      hide SubRoutes, Validate, Transfer;
      if user !in auth {
        return Err(Trap);
      }
      if tokenIn == tokenOut {
        return Err(InAggregator(InvalidRoute));
      }
      if minOut <= 0 {
        return Err(InAggregator(InvalidMinimumOut));
      }
      var totalIn := ValidateSubRoutes(tokenIn, tokenOut, routes);
      if totalIn.Err? {
        return totalIn;
      }
      var pulled := host.Move(tokenIn, user, Aggregator, totalIn.value);
      if !pulled {
        return Err(Trap);
      }
      var totalOut, _ := ExecuteSubRoutes(user, routes, 0, replies, 0);
      if totalOut.Err? {
        return totalOut;
      }
      if totalOut.value < minOut {
        return Err(InAggregator(OutputBelowMinimum));
      }
      var paid := host.Move(tokenOut, Aggregator, user, totalOut.value);
      if !paid {
        return Err(Trap);
      }
      host.Publish(SwapDone(user, tokenIn, tokenOut, totalIn.value, totalOut.value, |routes|));
      return totalOut;
    }

    method SwapRestricted(auth: set<Address>, user: Address, tokenIn: Address, tokenOut: Address, routes: seq<SubRoute>,
                          minOut: int128, replies: seq<Reply>) returns (r: Result<int128>)
      modifies host
      ensures var spec := AggregatorModel.SwapRestricted(old(host.State()), venues, auth, user, tokenIn, tokenOut, routes,
                                                         minOut, replies);
              && r.Ok? == spec.Ok?
              && (r.Ok? ==> spec.value == (host.State(), r.value))
              && (r.Err? ==> r.error == spec.error && host.State() == old(host.State()))
    {
      hide AggregatorModel.Swap, AllRegistered;
      var registered := ValidateRegisteredVenues(routes);
      if !registered {
        return Err(InAggregator(VenueNotRegistered));
      }
      r := Swap(auth, user, tokenIn, tokenOut, routes, minOut, replies);
    }

    /** `round_trip_swap`: commits, or fails and leaves the ledger as it was. */
    method RoundTripSwap(auth: set<Address>, user: Address, base: Address, bridge: Address, amountIn: int128,
                         legOut: seq<SubRoute>, legBack: seq<SubRoute>, minOut: int128, replies: seq<Reply>)
      returns (r: Result<int128>)
      modifies host
      ensures var spec := RoundTrip(old(host.State()), auth, user, base, bridge, amountIn, legOut, legBack, minOut, replies);
              && r.Ok? == spec.Ok?
              && (r.Ok? ==> spec.value == (host.State(), r.value))
              && (r.Err? ==> r.error == spec.error && host.State() == old(host.State()))
    {
      var before := host.State();
      r := RoundTripBody(auth, user, base, bridge, amountIn, legOut, legBack, minOut, replies);
      if r.Err? {
        host.Restore(before);
      }
    }

    method CheckRoundTrip(auth: set<Address>, user: Address, base: Address, bridge: Address, amountIn: int128,
                          legOut: seq<SubRoute>, legBack: seq<SubRoute>, minOut: int128) returns (r: Result<int128>)
      ensures r == RoundTripChecks(auth, user, base, bridge, amountIn, legOut, legBack, minOut)
    {
      hide Validate;
      if user !in auth {
        return Err(Trap);
      }
      if amountIn <= 0 {
        return Err(InAggregator(InvalidAmount));
      }
      if minOut < amountIn {
        return Err(InAggregator(InvalidMinimumOut));
      }
      if base == bridge {
        return Err(InAggregator(InvalidRoute));
      }
      var legOutIn := ValidateSubRoutes(base, bridge, legOut);
      if legOutIn.Err? {
        return legOutIn;
      }
      var backChecked := ValidateSubRoutes(bridge, base, legBack);
      if backChecked.Err? {
        return backChecked;
      }
      return if legOutIn.value != amountIn then Err(InAggregator(InvalidAmount)) else legOutIn;
    }

    method RoundTripBody(auth: set<Address>, user: Address, base: Address, bridge: Address, amountIn: int128,
                         legOut: seq<SubRoute>, legBack: seq<SubRoute>, minOut: int128, replies: seq<Reply>)
      returns (r: Result<int128>)
      modifies host
      ensures var spec := RoundTrip(old(host.State()), auth, user, base, bridge, amountIn, legOut, legBack, minOut, replies);
              && r.Ok? == spec.Ok?
              && (r.Ok? ==> spec.value == (host.State(), r.value))
              && (r.Err? ==> r.error == spec.error)
    {
      hide SubRoutes, RoundTripChecks, Transfer, HopsBefore, Rescale.ScaleSubRoutesToTotal;
      var checked := CheckRoundTrip(auth, user, base, bridge, amountIn, legOut, legBack, minOut);
      if checked.Err? {
        return checked;
      }
      var isSplit := |legOut| > 1 || |legBack| > 1;

      var pulled := host.Move(base, user, Aggregator, amountIn);
      if !pulled {
        return Err(Trap);
      }
      var bridgeTotal, hops := ExecuteSubRoutes(user, legOut, 0, replies, 0);
      if bridgeTotal.Err? {
        return bridgeTotal;
      }
      if bridgeTotal.value <= 0 {
        return Err(InAggregator(ZeroStepOutput));
      }
      var scaled := Rescale.ScaleInLoops(legBack, bridgeTotal.value);
      if scaled.Err? {
        return Err(scaled.error);
      }
      var baseTotal, depth := ExecuteSubRoutes(user, scaled.value, hops, replies, HopsBefore(legOut, |legOut|));
      if baseTotal.Err? {
        return baseTotal;
      }
      if baseTotal.value < minOut {
        return Err(InAggregator(OutputBelowMinimum));
      }
      var paid := host.Move(base, Aggregator, user, baseTotal.value);
      if !paid {
        return Err(Trap);
      }
      host.Publish(RoundTripDone(user, base, bridge, amountIn, baseTotal.value, depth, isSplit));
      return baseTotal;
    }
  }
}
