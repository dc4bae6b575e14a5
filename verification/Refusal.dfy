// What the refusals of the contracts mean.

module Refusal {
  import opened AggregatorModel
  import opened Base
  import opened Custody
  import opened EscrowModel
  import opened Ledger
  import Rescale
  import Settlement
  import Success
  import VaultModel

  // ----- Validation and hops -----

  /** What is wrong with one of the routes, by the code of its refusal. */
  ghost predicate Blames(routes: seq<SubRoute>, tokenIn: Address, tokenOut: Address, e: Error) {
    match e
    case InAggregator(EmptyRoutes) => routes == []
    case InAggregator(InvalidAmount) => exists k :: 0 <= k < |routes| && routes[k].amountIn <= 0
    case InAggregator(InvalidRoute) => exists k :: 0 <= k < |routes| && !FromTo(routes[k].steps, tokenIn, tokenOut)
    case InAggregator(DisconnectedRoute) => exists k :: 0 <= k < |routes| && !Connected(routes[k].steps)
    case InAggregator(ArithmeticOverflow) => exists k :: 0 < k <= |routes| && Sum(Amounts(routes)[..k]) > I128_MAX
    case _ => false
  }

  ghost predicate FromTo(steps: seq<SwapStep>, tokenIn: Address, tokenOut: Address) {
    steps != [] && steps[0].tokenIn == tokenIn && steps[|steps| - 1].tokenOut == tokenOut
  }

  ghost predicate Connected(steps: seq<SwapStep>) {
    forall j :: 0 < j < |steps| ==> steps[j - 1].tokenOut == steps[j].tokenIn
  }

  lemma RouteRefusal(routes: seq<SubRoute>, tokenIn: Address, tokenOut: Address, i: nat, total: int128)
    requires i < |routes| && total == Sum(Amounts(routes)[..i]) && total >= 0
    ensures var r := ValidateRoute(routes[i], tokenIn, tokenOut, total);
            if r.Ok? then r.value == Sum(Amounts(routes)[..i + 1]) && r.value >= 0 else Blames(routes, tokenIn, tokenOut, r.error)
  {
    hide Sum, Amounts;
    SumTake(Amounts(routes), i);
    Settlement.ConnectedFromMeans(routes[i].steps, 1);
  }

  lemma {:induction false} ValidateRefusal(routes: seq<SubRoute>, tokenIn: Address, tokenOut: Address, i: nat, total: int128)
    requires i <= |routes| && total == Sum(Amounts(routes)[..i]) && total >= 0
    ensures var r := ValidateFrom(routes, tokenIn, tokenOut, i, total);
            r.Err? ==> routes != [] && Blames(routes, tokenIn, tokenOut, r.error)
    decreases |routes| - i
  {
    hide Sum, Amounts, Blames, ValidateRoute;
    if i == |routes| {
    } else {
      RouteRefusal(routes, tokenIn, tokenOut, i, total);
      var r := ValidateRoute(routes[i], tokenIn, tokenOut, total);
      if r.Ok? {
        ValidateRefusal(routes, tokenIn, tokenOut, i + 1, r.value);
      }
    }
  }

  /** A validation refuses routes only for what its code says of them. */
  lemma ValidateRefusalMeans(routes: seq<SubRoute>, tokenIn: Address, tokenOut: Address)
    ensures var r := Validate(routes, tokenIn, tokenOut); r.Err? ==> Blames(routes, tokenIn, tokenOut, r.error)
  {
    hide Blames, ValidateFrom;
    if routes == [] {
      NoRoutes(routes, tokenIn, tokenOut);
    } else {
      assert Amounts(routes)[..0] == [];
      Success.SumOfNothing();
      ValidateRefusal(routes, tokenIn, tokenOut, 0, 0);
    }
  }

  lemma NoRoutes(routes: seq<SubRoute>, tokenIn: Address, tokenOut: Address)
    requires routes == []
    ensures Blames(routes, tokenIn, tokenOut, InAggregator(EmptyRoutes))
  {
  }

  /** What stops a path: a venue or a token, a step between equal tokens or indices, or a hop without output. */
  lemma {:induction false} HopsRefusal(c: Chain, user: Address, steps: seq<SwapStep>, i: nat, amount: int128, base: uint32,
                                       replies: seq<Reply>, first: nat)
    requires i <= |steps|
    ensures var r := Hops(c, user, steps, i, amount, base, replies, first);
            r.Err? ==>
              || r.error.Trap?
              || (r.error == InAggregator(InvalidStep) && exists j :: i <= j < |steps| && BadStep(steps[j]))
              || (r.error == InAggregator(ZeroStepOutput) && i < |steps|)
    decreases |steps| - i
  {
    hide StepInner;
    if i == |steps| {
    } else {
      StepTraps(c, user, steps[i], amount, SaturatingAdd32(base, ClampToU32(i)), ReplyAt(replies, first + i));
      hide Step;
      var r := Step(c, user, steps[i], amount, SaturatingAdd32(base, ClampToU32(i)), ReplyAt(replies, first + i));
      if r.Ok? && r.value.1 > 0 {
        HopsRefusal(r.value.0, user, steps, i + 1, r.value.1, base, replies, first);
      }
    }
  }

  lemma StepTraps(c: Chain, user: Address, step: SwapStep, amountIn: int128, hop: uint32, reply: Reply)
    ensures var r := Step(c, user, step, amountIn, hop, reply); r.Err? ==> r.error == Trap
  {
    hide Transfer, Balance, PairQuote;
  }

  /** One of the routes has a step between equal tokens or indices. */
  ghost predicate HasBadStep(routes: seq<SubRoute>) {
    exists k, j :: 0 <= k < |routes| && 0 <= j < |routes[k].steps| && BadStep(routes[k].steps[j])
  }

  ghost predicate BadStep(step: SwapStep) {
    step.tokenIn == step.tokenOut || step.inIdx == step.outIdx
  }

  /** What stops routes of positive amounts. */
  ghost predicate Stopped(routes: seq<SubRoute>, e: Error) {
    e.Trap? || e == InAggregator(ZeroStepOutput) || e == InAggregator(ArithmeticOverflow)
    || (e == InAggregator(InvalidStep) && HasBadStep(routes))
  }

  lemma PathRefusal(c: Chain, user: Address, routes: seq<SubRoute>, i: nat, base: uint32, replies: seq<Reply>, first: nat)
    requires i < |routes| && routes[i].amountIn > 0
    ensures var r := Path(c, user, routes[i], base, replies, first); r.Err? ==> Stopped(routes, r.error)
  {
    hide Hops;
    var steps := routes[i].steps;
    HopsRefusal(c, user, steps, 0, routes[i].amountIn, base, replies, first);
    var r := Path(c, user, routes[i], base, replies, first);
    if r.Err? && r.error == InAggregator(InvalidStep) {
      var j :| 0 <= j < |steps| && BadStep(steps[j]);
      assert BadStep(routes[i].steps[j]);
    }
  }

  lemma {:induction false} RoutesRefusal(c: Chain, user: Address, routes: seq<SubRoute>, i: nat, total: int128, base: uint32,
                                         replies: seq<Reply>, first: nat)
    requires i <= |routes| && forall k :: 0 <= k < |routes| ==> routes[k].amountIn > 0
    ensures var r := Routes(c, user, routes, i, total, base, replies, first); r.Err? ==> Stopped(routes, r.error)
    decreases |routes| - i
  {
    hide HopsBefore, Path, HasBadStep;
    if i == |routes| {
    } else {
      PathRefusal(c, user, routes, i, base, replies, first + HopsBefore(routes, i));
      var r := Path(c, user, routes[i], base, replies, first + HopsBefore(routes, i));
      if r.Ok? && I128_MIN <= total + r.value.1 <= I128_MAX {
        RoutesRefusal(r.value.0, user, routes, i + 1, total + r.value.1, base, replies, first);
      }
    }
  }

  lemma SubRoutesRefusal(c: Chain, user: Address, routes: seq<SubRoute>, base: uint32, replies: seq<Reply>, first: nat)
    requires forall k :: 0 <= k < |routes| ==> routes[k].amountIn > 0
    ensures var r := SubRoutes(c, user, routes, base, replies, first); r.Err? ==> Stopped(routes, r.error)
  {
    hide Routes, HasBadStep;
    RoutesRefusal(c, user, routes, 0, 0, base, replies, first);
  }

  /** What the code of a refused swap says. A trap is an abort of the host: no signature, a token or a venue that refuses. */
  lemma SwapRefusalMeans(c: Chain, auth: set<Address>, user: Address, tokenIn: Address, tokenOut: Address, routes: seq<SubRoute>,
                         minOut: int128, replies: seq<Reply>, e: Error)
    requires Swap(c, auth, user, tokenIn, tokenOut, routes, minOut, replies) == Err(e)
    ensures || e.Trap?
            || (e == InAggregator(InvalidRoute) && tokenIn == tokenOut)
            || (e == InAggregator(InvalidMinimumOut) && minOut <= 0)
            || Blames(routes, tokenIn, tokenOut, e)
            || (ValidRoutes(routes, tokenIn, tokenOut) && Stopped(routes, e))
            || (&& e == InAggregator(OutputBelowMinimum) && Transfer(c, tokenIn, user, Aggregator, Sum(Amounts(routes))).Ok?
                && var r := SubRoutes(Transfer(c, tokenIn, user, Aggregator, Sum(Amounts(routes))).value, user, routes, 0, replies, 0);
                   r.Ok? && r.value.1 < minOut)
  {
    hide Validate, ValidRoutes, SubRoutes, Transfer, Balance, Moved, Sum, Amounts, Blames, Stopped;
    Settlement.ValidateMeans(routes, tokenIn, tokenOut);
    ValidateRefusalMeans(routes, tokenIn, tokenOut);
    if Validate(routes, tokenIn, tokenOut).Ok? {
      Settlement.RoutesPositive(routes, tokenIn, tokenOut);
      var pulled := Transfer(c, tokenIn, user, Aggregator, Sum(Amounts(routes)));
      if pulled.Ok? {
        SubRoutesRefusal(pulled.value, user, routes, 0, replies, 0);
      }
    }
  }

  lemma RestrictedRefusalMeans(c: Chain, venues: set<(uint32, Address)>, auth: set<Address>, user: Address, tokenIn: Address,
                               tokenOut: Address, routes: seq<SubRoute>, minOut: int128, replies: seq<Reply>)
    ensures SwapRestricted(c, venues, auth, user, tokenIn, tokenOut, routes, minOut, replies)
            == if exists i, j :: 0 <= i < |routes| && 0 <= j < |routes[i].steps| && !Registered(venues, routes[i].steps[j])
               then Err(InAggregator(VenueNotRegistered))
               else Swap(c, auth, user, tokenIn, tokenOut, routes, minOut, replies)
  {
    hide Swap, Registered;
  }

  lemma RoundTripChecksRefusal(auth: set<Address>, user: Address, base: Address, bridge: Address, amountIn: int128,
                               legOut: seq<SubRoute>, legBack: seq<SubRoute>, minOut: int128)
    ensures var r := RoundTripChecks(auth, user, base, bridge, amountIn, legOut, legBack, minOut);
            r.Err? ==>
              || r.error.Trap?
              || (r.error == InAggregator(InvalidRoute) && base == bridge)
              || (r.error == InAggregator(InvalidMinimumOut) && minOut < amountIn)
              || (r.error == InAggregator(InvalidAmount) && (amountIn <= 0 || Sum(Amounts(legOut)) != amountIn))
              || Blames(legOut, base, bridge, r.error) || Blames(legBack, bridge, base, r.error)
  {
    hide Validate, Sum, Amounts, Blames, ValidRoutes;
    Settlement.ValidateMeans(legOut, base, bridge);
    ValidateRefusalMeans(legOut, base, bridge);
    ValidateRefusalMeans(legBack, bridge, base);
  }

  /** The out leg ran, and then its proceeds could not be split, the back leg stopped, or it returned too little. */
  ghost predicate RefusedOnTheWayBack(c: Chain, user: Address, base: Address, amountIn: int128, legOut: seq<SubRoute>,
                                      legBack: seq<SubRoute>, minOut: int128, replies: seq<Reply>, e: Error)
  {
    var pulled := Transfer(c, base, user, Aggregator, amountIn);
    && pulled.Ok?
    && var there := SubRoutes(pulled.value, user, legOut, 0, replies, 0);
       && there.Ok?
       && var scaled := Rescale.ScaleSubRoutesToTotal(legBack, there.value.1);
          if scaled.Err? then e == scaled.error
          else
            var again := SubRoutes(there.value.0, user, scaled.value, there.value.2, replies, HopsBefore(legOut, |legOut|));
            if again.Err? then Stopped(scaled.value, e) else e == InAggregator(OutputBelowMinimum) && again.value.1 < minOut
  }

  /** What the code of a refused round trip says. */
  lemma RoundTripRefusalMeans(c: Chain, auth: set<Address>, user: Address, base: Address, bridge: Address, amountIn: int128,
                              legOut: seq<SubRoute>, legBack: seq<SubRoute>, minOut: int128, replies: seq<Reply>, e: Error)
    requires RoundTrip(c, auth, user, base, bridge, amountIn, legOut, legBack, minOut, replies) == Err(e)
    ensures || e.Trap?
            || (e == InAggregator(InvalidRoute) && base == bridge)
            || (e == InAggregator(InvalidMinimumOut) && minOut < amountIn)
            || (e == InAggregator(InvalidAmount) && (amountIn <= 0 || Sum(Amounts(legOut)) != amountIn))
            || Blames(legOut, base, bridge, e) || Blames(legBack, bridge, base, e)
            || (ValidRoutes(legOut, base, bridge) && Stopped(legOut, e))
            || RefusedOnTheWayBack(c, user, base, amountIn, legOut, legBack, minOut, replies, e)
  {
    hide RoundTripChecks, ValidRoutes, SubRoutes, Transfer, Balance, Moved, Sum, Amounts, Blames, HasBadStep, HopsBefore,
         Rescale.ScaleSubRoutesToTotal;
    Success.RoundTripChecksMean(auth, user, base, bridge, amountIn, legOut, legBack, minOut);
    RoundTripChecksRefusal(auth, user, base, bridge, amountIn, legOut, legBack, minOut);
    if RoundTripChecks(auth, user, base, bridge, amountIn, legOut, legBack, minOut).Ok? {
      Settlement.RoutesPositive(legOut, base, bridge);
      var pulled := Transfer(c, base, user, Aggregator, amountIn);
      if pulled.Ok? {
        SubRoutesRefusal(pulled.value, user, legOut, 0, replies, 0);
        var there := SubRoutes(pulled.value, user, legOut, 0, replies, 0);
        if there.Ok? && Rescale.ScaleSubRoutesToTotal(legBack, there.value.1).Ok? {
          var scaled := Rescale.ScaleSubRoutesToTotal(legBack, there.value.1).value;
          Rescale.ScaledRoutesAreExact(legBack, there.value.1);
          SubRoutesRefusal(there.value.0, user, scaled, there.value.2, replies, HopsBefore(legOut, |legOut|));
        }
      }
    }
  }

  // ----- Orders and lendings -----

  /** What the code of a refused lending says. */
  lemma LendingRefusalMeans(c: Chain, callers: set<Address>, auth: set<Address>, now: uint32, caller: Address, base: Address,
                            bridge: Address, amountIn: int128, legOut: seq<SubRoute>, legBack: seq<SubRoute>, minOut: int128,
                            allowanceExpiry: uint32, replies: seq<Reply>, e: VaultError)
    requires VaultModel.ExecuteRoundTrip(c, callers, auth, now, caller, base, bridge, amountIn, legOut, legBack, minOut,
                                         allowanceExpiry, replies) == Err(InVault(e))
    ensures match e
            case UnauthorizedCaller => caller !in callers
            case NonPositiveAmount => amountIn <= 0
            case MinimumBelowPrincipal => minOut < amountIn
            case InvalidAllowanceExpiry => allowanceExpiry < now
  {
    hide Transfer, TransferFrom, Approve, RoundTrip;
    var lent := Transfer(Approve(c, base, caller, Vault, I128_MAX), base, Vault, caller, amountIn);
    if lent.Ok? {
      RoundTripBlamesNoVault(lent.value, auth, caller, base, bridge, amountIn, legOut, legBack, minOut, replies);
    }
  }

  /** Rescaling refuses with the aggregator's codes: no routes, an amount that is or becomes zero, or a product out of range. */
  lemma {:induction false} ScaleFromRefusal(routes: seq<SubRoute>, total: int128, weightSum: int128, i: nat, given: int128)
    requires i <= |routes| && weightSum > 0
    ensures var r := Rescale.ScaleFrom(routes, total, weightSum, i, given);
            r.Err? ==> r.error in {InAggregator(InvalidAmount), InAggregator(ArithmeticOverflow), InAggregator(ArithmeticUnderflow)}
    decreases |routes| - i
  {
    if i == |routes| {
    } else {
      var turn := Rescale.ScaledAmount(routes, total, weightSum, i, given);
      if turn.Ok? {
        ScaleFromRefusal(routes, total, weightSum, i + 1, turn.value.1);
      }
    }
  }

  lemma {:induction false} WeightSumRefusal(routes: seq<SubRoute>, i: nat, acc: int128)
    requires i <= |routes|
    ensures var r := Rescale.WeightSum(routes, i, acc);
            r.Err? ==> r.error in {InAggregator(InvalidAmount), InAggregator(ArithmeticOverflow)}
    decreases |routes| - i
  {
    if i < |routes| && routes[i].amountIn > 0 && acc + routes[i].amountIn <= I128_MAX {
      WeightSumRefusal(routes, i + 1, acc + routes[i].amountIn);
    }
  }

  lemma ScalingRefusalMeans(routes: seq<SubRoute>, total: int128)
    ensures var r := Rescale.ScaleSubRoutesToTotal(routes, total);
            r.Err? ==>
              || (r.error == InAggregator(EmptyRoutes) && routes == [])
              || (routes != [] && r.error in {InAggregator(InvalidAmount), InAggregator(ArithmeticOverflow),
                                              InAggregator(ArithmeticUnderflow)})
  {
    hide Rescale.WeightSum, Rescale.ScaleFrom;
    WeightSumRefusal(routes, 0, 0);
    var w := Rescale.WeightSum(routes, 0, 0);
    if w.Ok? && w.value > 0 {
      ScaleFromRefusal(routes, total, w.value, 0, 0);
    }
  }

  lemma RoundTripBlamesNoVault(c: Chain, auth: set<Address>, user: Address, base: Address, bridge: Address, amountIn: int128,
                               legOut: seq<SubRoute>, legBack: seq<SubRoute>, minOut: int128, replies: seq<Reply>)
    ensures var r := RoundTrip(c, auth, user, base, bridge, amountIn, legOut, legBack, minOut, replies); r.Err? ==> !r.error.InVault?
  {
    hide RoundTrip, ValidRoutes, SubRoutes, Transfer, Sum, Amounts, HopsBefore, Rescale.ScaleSubRoutesToTotal, HasBadStep;
    var r := RoundTrip(c, auth, user, base, bridge, amountIn, legOut, legBack, minOut, replies);
    if r.Err? {
      var pulled := Transfer(c, base, user, Aggregator, amountIn);
      if pulled.Ok? && SubRoutes(pulled.value, user, legOut, 0, replies, 0).Ok? {
        ScalingRefusalMeans(legBack, SubRoutes(pulled.value, user, legOut, 0, replies, 0).value.1);
      }
      RoundTripRefusalMeans(c, auth, user, base, bridge, amountIn, legOut, legBack, minOut, replies, r.error);
    }
  }

  /** What the code of a refused fill says. */
  lemma FillRefusalMeans(c: Chain, b: Book, venues: set<(uint32, Address)>, now: uint32, id: uint64, amountIn: int128,
                         routes: seq<SubRoute>, minOut: int128, replies: seq<Reply>, e: EscrowError)
    requires ValidBook(b) && Fill(c, b, venues, now, id, amountIn, routes, minOut, replies) == Err(InEscrow(e))
    ensures if id !in b.limits then e == OrderNotFound
            else
              var o := b.limits[id];
              match e
              case OrderNotOpen => !o.status.Open?
              case OrderExpired => now >= o.expires
              case AmountNotPositive => amountIn <= 0
              case AmountExceedsRemaining => amountIn > o.remaining
              case EscrowOverflow => exists k :: 0 < k <= |routes| && !(I128_MIN <= Sum(Amounts(routes)[..k]) <= I128_MAX)
              case RouteAmountMismatch => Sum(Amounts(routes)) != amountIn
              case MinimumOutBelowLimit => !Success.PriceMet(amountIn, o.limit, minOut)
              case _ => false
  {
    hide SwapForOwner, RoutedFrom, RequiredMinOut, Sum, Amounts, Success.PriceMet;
    RoutedRefusal(routes);
    RoutedIsSum(routes);
    if id in b.limits && amountIn > 0 {
      assert ValidLimit(b.limits[id]);
      Success.MinimumIsPrice(amountIn, b.limits[id].limit, minOut);
      var o := b.limits[id];
      SwapBlamesNoOrder(c, venues, o.owner, o.tokenIn, o.tokenOut, routes, minOut, replies);
    }
  }

  lemma FillDcaRefusalMeans(c: Chain, b: Book, venues: set<(uint32, Address)>, now: uint32, id: uint64, routes: seq<SubRoute>,
                            minOut: int128, replies: seq<Reply>, e: EscrowError)
    requires ValidBook(b) && FillDca(c, b, venues, now, id, routes, minOut, replies) == Err(InEscrow(e))
    ensures if id !in b.dcas then e == OrderNotFound
            else
              var o := b.dcas[id];
              var due := if o.remaining < o.chunk then o.remaining else o.chunk;
              match e
              case OrderNotOpen => !o.status.Open?
              case OrderExpired => now >= o.expires
              case ChunkNotDue => now < o.next
              case EscrowOverflow => exists k :: 0 < k <= |routes| && !(I128_MIN <= Sum(Amounts(routes)[..k]) <= I128_MAX)
              case RouteAmountMismatch => Sum(Amounts(routes)) != due
              case MinimumOutBelowLimit => o.minRate > 0 && !Success.PriceMet(due, o.minRate, minOut)
              case AmountNotPositive => o.minRate == 0 && minOut <= 0
              case _ => false
  {
    hide SwapForOwner, RoutedFrom, RequiredMinOut, Sum, Amounts, Success.PriceMet;
    RoutedRefusal(routes);
    RoutedIsSum(routes);
    if id in b.dcas {
      var o := b.dcas[id];
      Success.MinimumIsPrice(ChunkDue(o), o.minRate, minOut);
      SwapBlamesNoOrder(c, venues, o.owner, o.tokenIn, o.tokenOut, routes, minOut, replies);
    }
  }

  lemma {:induction false} RoutedRefusalFrom(routes: seq<SubRoute>, i: nat, acc: int128)
    requires i <= |routes| && acc == Sum(Amounts(routes)[..i])
    ensures RoutedFrom(routes, i, acc).Err? ==>
              RoutedFrom(routes, i, acc).error == InEscrow(EscrowOverflow)
              && exists k :: 0 < k <= |routes| && !(I128_MIN <= Sum(Amounts(routes)[..k]) <= I128_MAX)
    decreases |routes| - i
  {
    hide Sum, Amounts;
    if i == |routes| {
    } else {
      SumTake(Amounts(routes), i);
      if I128_MIN <= acc + routes[i].amountIn <= I128_MAX {
        RoutedRefusalFrom(routes, i + 1, acc + routes[i].amountIn);
      }
    }
  }

  lemma RoutedRefusal(routes: seq<SubRoute>)
    ensures RoutedFrom(routes, 0, 0).Err? ==>
              RoutedFrom(routes, 0, 0).error == InEscrow(EscrowOverflow)
              && exists k :: 0 < k <= |routes| && !(I128_MIN <= Sum(Amounts(routes)[..k]) <= I128_MAX)
  {
    assert Amounts(routes)[..0] == [];
    RoutedRefusalFrom(routes, 0, 0);
  }

  lemma SwapBlamesNoOrder(c: Chain, venues: set<(uint32, Address)>, owner: Address, tokenIn: Address, tokenOut: Address,
                          routes: seq<SubRoute>, minOut: int128, replies: seq<Reply>)
    ensures var r := SwapForOwner(c, venues, owner, tokenIn, tokenOut, routes, minOut, replies); r.Err? ==> !r.error.InEscrow?
  {
    hide Swap, ValidRoutes, SubRoutes, Transfer, Sum, Amounts, AllRegistered, HasBadStep;
    var r := Swap(c, {Escrow}, Escrow, tokenIn, tokenOut, routes, minOut, replies);
    if r.Err? {
      SwapRefusalMeans(c, {Escrow}, Escrow, tokenIn, tokenOut, routes, minOut, replies, r.error);
    }
  }

  /** What the codes of refused creations, cancels and reclaims say. */
  lemma CreationRefusalMeans(c: Chain, b: Book, auth: set<Address>, now: uint32, owner: Address, tokenIn: Address,
                             tokenOut: Address, amountIn: int128, limit: int128, expires: uint32, e: EscrowError)
    requires CreateLimit(c, b, auth, now, owner, tokenIn, tokenOut, amountIn, limit, expires) == Err(InEscrow(e))
    ensures match e
            case AmountNotPositive => amountIn <= 0
            case LimitNotPositive => limit <= 0
            case SameToken => tokenIn == tokenOut
            case ExpirationInPast => expires <= now
            case ExpirationTooFar => expires > now + 518_400
            case EscrowOverflow => b.nextLimit == U64_MAX
            case _ => false
  {
    hide Transfer;
  }

  lemma DcaCreationRefusalMeans(c: Chain, b: Book, auth: set<Address>, now: uint32, owner: Address, tokenIn: Address,
                                tokenOut: Address, amountIn: int128, chunk: int128, interval: uint32, start: uint32, minRate: int128,
                                expires: uint32, e: EscrowError)
    requires CreateDca(c, b, auth, now, owner, tokenIn, tokenOut, amountIn, chunk, interval, start, minRate, expires) == Err(InEscrow(e))
    ensures match e
            case AmountNotPositive => amountIn <= 0
            case InvalidChunk => !(0 < chunk <= amountIn)
            case InvalidInterval => interval == 0
            case StartLedgerInPast => start < now
            case InvalidMinimumRate => minRate < 0
            case SameToken => tokenIn == tokenOut
            case ExpirationInPast => expires <= start
            case ExpirationTooFar => expires > now + 518_400
            case EscrowOverflow => b.nextDca == U64_MAX
            case _ => false
  {
    hide Transfer;
  }

  lemma CloseRefusalMeans(c: Chain, b: Book, auth: set<Address>, now: uint32, id: uint64, e: EscrowError)
    ensures Cancel(c, b, auth, now, id) == Err(InEscrow(e)) || Reclaim(c, b, now, id) == Err(InEscrow(e)) ==>
              if id !in b.limits then e == OrderNotFound
              else (e == OrderNotOpen && !b.limits[id].status.Open?) || (e == OrderNotExpired && now <= b.limits[id].expires)
    ensures CancelDca(c, b, auth, now, id) == Err(InEscrow(e)) || ReclaimDca(c, b, now, id) == Err(InEscrow(e)) ==>
              if id !in b.dcas then e == OrderNotFound
              else (e == OrderNotOpen && !b.dcas[id].status.Open?) || (e == OrderNotExpired && now <= b.dcas[id].expires)
  {
    hide Transfer;
  }
}
