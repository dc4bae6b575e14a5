// Exactly when the calls of the three contracts succeed, and what a refusal means.

module Success {
  import opened AggregatorModel
  import opened Base
  import opened Custody
  import opened EscrowModel
  import opened Ledger
  import OrderRuns
  import Rescale
  import Settlement
  import VaultModel

  // ----- Tokens -----

  /** A transfer succeeds exactly when the sender has the amount and the receiver can hold it. */
  lemma TransferSucceeds(c: Chain, token: Address, from: Address, to: Address, amount: int)
    ensures Transfer(c, token, from, to, amount).Ok? <==>
            0 <= amount <= Balance(c, token, from) && (from == to || Balance(c, token, to) + amount <= I128_MAX)
  {
  }

  /** On an owner's behalf, exactly when its allowance covers the amount too, and the allowance is used up by it. */
  lemma TransferFromSucceeds(c: Chain, token: Address, spender: Address, from: Address, to: Address, amount: int)
    ensures var r := TransferFrom(c, token, spender, from, to, amount);
            && (r.Ok? <==> 0 <= amount <= Balance(c, token, from) && amount <= Allowance(c, token, from, spender)
                           && (from == to || Balance(c, token, to) + amount <= I128_MAX))
            && (r.Ok? ==> Allowance(r.value, token, from, spender) == Allowance(c, token, from, spender) - amount)
  {
    hide Transfer, Balance;
    if 0 <= amount <= Allowance(c, token, from, spender) {
      var left := Allowance(c, token, from, spender) - amount;
      VaultModel.ApprovalKeepsBalances(c, token, from, spender, left);
      TransferSucceeds(Approve(c, token, from, spender, left), token, from, to, amount);
    }
  }

  // ----- One hop -----

  /** What the arm lets a venue leave of its input. */
  ghost predicate MayKeepBack(d: DexType, amountIn: int128, left: nat) {
    match d
    case SoroswapPair => left == 0
    case CometDex => left == 0 || left <= amountIn
    case Aquarius => left == 0 || left == amountIn
    case Phoenix => left == 0 || left == amountIn
    case Sushi => left == 0 || left == amountIn
  }

  lemma LeaveMeans(d: DexType, amountIn: int128, left: nat)
    ensures MayLeave(d, amountIn, left) <==> MayKeepBack(d, amountIn, left)
  {
  }

  /** A hop succeeds exactly when a foreign contract answers it, and, unless its pair quotes nothing, the venue takes what its
      arm allows and both sides have what they pay. */
  lemma HopSucceeds(c: Chain, user: Address, step: SwapStep, amountIn: int128, reply: Reply)
    requires step.tokenIn != step.tokenOut
    ensures StepInner(c, user, step, amountIn, reply).Ok? <==>
            && reply.Answers? && step.dexId.Contract? && step.dexId != user
            && ((step.dexType.SoroswapPair? && PairQuote(step, amountIn, reply) <= 0)
                || (&& MayKeepBack(step.dexType, amountIn, reply.left)
                    && 0 <= amountIn - reply.left <= Balance(c, step.tokenIn, Aggregator)
                    && Balance(c, step.tokenIn, step.dexId) + amountIn - reply.left <= I128_MAX
                    && reply.delivered <= Balance(c, step.tokenOut, step.dexId)
                    && Balance(c, step.tokenOut, Aggregator) + reply.delivered <= I128_MAX))
  {
    hide Transfer, Balance, PairQuote, Moved, MayLeave, MayKeepBack;
    if reply.Answers? {
      LeaveMeans(step.dexType, amountIn, reply.left);
    }
    if reply.Answers? && step.dexId.Contract? && 0 <= amountIn - reply.left {
      TransferSucceeds(c, step.tokenIn, Aggregator, step.dexId, amountIn - reply.left);
      var taken := Transfer(c, step.tokenIn, Aggregator, step.dexId, amountIn - reply.left);
      if taken.Ok? {
        OtherTokenUnmoved(c, step.tokenIn, Aggregator, step.dexId, amountIn - reply.left, step.tokenOut);
        TransferSucceeds(taken.value, step.tokenOut, step.dexId, Aggregator, reply.delivered);
      }
    }
  }

  lemma OtherTokenUnmoved(c: Chain, token: Address, from: Address, to: Address, amount: int, t: Address)
    requires t != token && Transfer(c, token, from, to, amount).Ok?
    ensures forall a :: Balance(Transfer(c, token, from, to, amount).value, t, a) == Balance(c, t, a)
  {
    hide Transfer, Balance;
  }

  // ----- A path -----

  /** One hop of a path: from a ledger and an amount in hand to the next. */
  ghost predicate HopRun(user: Address, step: SwapStep, hop: nat, reply: Reply, before: (Chain, int128), after: (Chain, int128)) {
    && step.tokenIn != step.tokenOut && step.inIdx != step.outIdx && after.1 > 0
    && exists c: Chain ::
         && StepInner(before.0, user, step, before.1, reply) == Ok((c, after.1))
         && after.0 == c.(log := c.log + [Leg(if hop > 0xFFFF_FFFF then 0xFFFF_FFFF else hop, DexTag(step.dexType), step.dexId,
                                              step.tokenIn, before.1)])
  }

  /** Hops i, i + 1, ... of a path, as the ledgers and amounts between them. */
  ghost predicate PathRun(user: Address, steps: seq<SwapStep>, i: nat, base: nat, replies: seq<Reply>, first: nat,
                          trace: seq<(Chain, int128)>)
    requires i <= |steps|
  {
    && |trace| == |steps| - i + 1
    && forall j :: 0 <= j < |steps| - i ==>
         HopRun(user, steps[i + j], base + i + j, ReplyAt(replies, first + i + j), trace[j], trace[j + 1])
  }

  lemma HopIsRun(c: Chain, user: Address, steps: seq<SwapStep>, i: nat, amount: int128, base: uint32, replies: seq<Reply>,
                 first: nat, after: (Chain, int128))
    requires i < |steps|
    ensures HopRun(user, steps[i], base + i, ReplyAt(replies, first + i), (c, amount), after) <==>
            && steps[i].tokenIn != steps[i].tokenOut && steps[i].inIdx != steps[i].outIdx && after.1 > 0
            && Step(c, user, steps[i], amount, SaturatingAdd32(base, ClampToU32(i)), ReplyAt(replies, first + i)) == Ok(after)
  {
    hide StepInner, DexTag;
    var r := StepInner(c, user, steps[i], amount, ReplyAt(replies, first + i));
    if r.Ok? && r.value.1 == after.1 {
      assert StepInner(c, user, steps[i], amount, ReplyAt(replies, first + i)) == Ok((r.value.0, after.1));
    }
  }

  lemma {:induction false} HopsTrace(c: Chain, user: Address, steps: seq<SwapStep>, i: nat, amount: int128, base: uint32,
                                     replies: seq<Reply>, first: nat) returns (trace: seq<(Chain, int128)>)
    requires i <= |steps| && Hops(c, user, steps, i, amount, base, replies, first).Ok?
    ensures PathRun(user, steps, i, base, replies, first, trace)
    ensures trace[0] == (c, amount) && trace[|steps| - i] == Hops(c, user, steps, i, amount, base, replies, first).value
    decreases |steps| - i
  {
    hide HopRun, Step;
    if i == |steps| {
      trace := [(c, amount)];
    } else {
      var after := Step(c, user, steps[i], amount, SaturatingAdd32(base, ClampToU32(i)), ReplyAt(replies, first + i)).value;
      HopIsRun(c, user, steps, i, amount, base, replies, first, after);
      var rest := HopsTrace(after.0, user, steps, i + 1, after.1, base, replies, first);
      trace := [(c, amount)] + rest;
      forall j | 0 <= j < |steps| - i
        ensures HopRun(user, steps[i + j], base + i + j, ReplyAt(replies, first + i + j), trace[j], trace[j + 1])
      {
        if j > 0 {
          RunAt(user, steps, i + 1, base, replies, first, rest, j - 1);
        }
      }
    }
  }

  lemma RunAt(user: Address, steps: seq<SwapStep>, i: nat, base: nat, replies: seq<Reply>, first: nat, trace: seq<(Chain, int128)>, j: nat)
    requires i + j < |steps| && PathRun(user, steps, i, base, replies, first, trace)
    ensures HopRun(user, steps[i + j], base + i + j, ReplyAt(replies, first + i + j), trace[j], trace[j + 1])
  {
    hide HopRun;
  }

  lemma {:induction false} TraceHops(user: Address, steps: seq<SwapStep>, i: nat, base: uint32, replies: seq<Reply>, first: nat,
                                     trace: seq<(Chain, int128)>)
    requires i <= |steps| && PathRun(user, steps, i, base, replies, first, trace)
    ensures Hops(trace[0].0, user, steps, i, trace[0].1, base, replies, first) == Ok(trace[|steps| - i])
    decreases |steps| - i
  {
    hide HopRun, Step;
    if i == |steps| {
    } else {
      RunAt(user, steps, i, base, replies, first, trace, 0);
      HopIsRun(trace[0].0, user, steps, i, trace[0].1, base, replies, first, trace[1]);
      forall j | 0 <= j < |steps| - (i + 1)
        ensures HopRun(user, steps[i + 1 + j], base + i + 1 + j, ReplyAt(replies, first + i + 1 + j), trace[1..][j], trace[1..][j + 1])
      {
        RunAt(user, steps, i, base, replies, first, trace, j + 1);
      }
      TraceHops(user, steps, i + 1, base, replies, first, trace[1..]);
    }
  }

  ghost predicate RunsTo(user: Address, steps: seq<SwapStep>, base: nat, replies: seq<Reply>, first: nat,
                         trace: seq<(Chain, int128)>, start: (Chain, int128), end: (Chain, int128))
  {
    PathRun(user, steps, 0, base, replies, first, trace) && trace[0] == start && trace[|steps|] == end
  }

  /** A path runs from a positive amount to a result exactly when there is a sequence of hops that leads there, each with
      different tokens and indices and a positive output, and each numbered from the base on. */
  lemma PathSucceeds(c: Chain, user: Address, route: SubRoute, base: uint32, replies: seq<Reply>, first: nat, after: (Chain, int128))
    ensures Path(c, user, route, base, replies, first) == Ok(after) <==>
            && route.amountIn > 0
            && exists trace :: RunsTo(user, route.steps, base, replies, first, trace, (c, route.amountIn), after)
  {
    hide Hops, PathRun;
    if Path(c, user, route, base, replies, first) == Ok(after) {
      var trace := HopsTrace(c, user, route.steps, 0, route.amountIn, base, replies, first);
      assert RunsTo(user, route.steps, base, replies, first, trace, (c, route.amountIn), after);
    }
    if trace :| RunsTo(user, route.steps, base, replies, first, trace, (c, route.amountIn), after) {
      TraceHops(user, route.steps, 0, base, replies, first, trace);
    }
  }

  // ----- Swaps -----

  /** A swap succeeds exactly when its user signed it, its routes are positive, connected and lead between two different tokens,
      the user has the input, the hops run and return at least a positive minimum, the user can hold the output, and no
      venue's claim runs ahead of its payment by more than the aggregator holds. */
  lemma SwapSucceeds(c: Chain, auth: set<Address>, user: Address, tokenIn: Address, tokenOut: Address, routes: seq<SubRoute>,
                     minOut: int128, replies: seq<Reply>)
    requires user != Aggregator
    ensures Swap(c, auth, user, tokenIn, tokenOut, routes, minOut, replies).Ok? <==>
            var total := Sum(Amounts(routes));
            && user in auth && tokenIn != tokenOut && minOut > 0 && routes != [] && ValidRoutes(routes, tokenIn, tokenOut)
            && total <= I128_MAX && total <= Balance(c, tokenIn, user) && Balance(c, tokenIn, Aggregator) + total <= I128_MAX
            && var pulled := Transfer(c, tokenIn, user, Aggregator, total);
               && pulled.Ok?
               && var r := SubRoutes(pulled.value, user, routes, 0, replies, 0);
                  && r.Ok? && r.value.1 >= minOut && Balance(c, tokenOut, user) + r.value.1 <= I128_MAX
                  && Balance(c, tokenOut, Aggregator) + Settlement.RoutesExcess(routes, 0, replies, 0, tokenOut) >= 0
  {
    hide Validate, ValidRoutes, SubRoutes, Transfer, Balance, Moved, Sum, Amounts, Settlement.RoutesExcess;
    Settlement.ValidateMeans(routes, tokenIn, tokenOut);
    var total := Sum(Amounts(routes));
    TransferSucceeds(c, tokenIn, user, Aggregator, total);
    if routes != [] && ValidRoutes(routes, tokenIn, tokenOut) && tokenIn != tokenOut && total <= I128_MAX {
      Settlement.TotalPositive(routes, tokenIn, tokenOut);
      var pulled := Transfer(c, tokenIn, user, Aggregator, total);
      if pulled.Ok? && SubRoutes(pulled.value, user, routes, 0, replies, 0).Ok? {
        OtherTokenUnmoved(c, tokenIn, user, Aggregator, total, tokenOut);
        PaymentSucceeds(pulled.value, user, tokenIn, tokenOut, routes, replies);
      }
    }
  }

  /** Paying out what the routes returned fails only for a receiver that cannot hold it, or a claim that was not paid. */
  lemma PaymentSucceeds(c: Chain, user: Address, tokenIn: Address, tokenOut: Address, routes: seq<SubRoute>, replies: seq<Reply>)
    requires user != Aggregator && tokenIn != tokenOut && ValidRoutes(routes, tokenIn, tokenOut)
    requires SubRoutes(c, user, routes, 0, replies, 0).Ok?
    ensures var (swapped, out, _) := SubRoutes(c, user, routes, 0, replies, 0).value;
            out >= 0 ==>
              (Transfer(swapped, tokenOut, Aggregator, user, out).Ok? <==>
               && Balance(c, tokenOut, user) + out <= I128_MAX
               && Balance(c, tokenOut, Aggregator) + Settlement.RoutesExcess(routes, 0, replies, 0, tokenOut) >= 0)
  {
    hide ValidRoutes, SubRoutes, Transfer, Balance, Sum, Amounts, Settlement.RoutesExcess;
    var (swapped, out, _) := SubRoutes(c, user, routes, 0, replies, 0).value;
    Settlement.SubRoutesAccount(c, user, routes, 0, replies, 0, tokenIn, tokenOut, tokenOut);
    Settlement.BystandersUnmoved(c, user, routes, 0, replies, 0, tokenOut);
    TransferSucceeds(swapped, tokenOut, Aggregator, user, out);
  }

  /** With the registry: exactly when every venue on the routes is registered under its type, too. */
  lemma RestrictedSwapSucceeds(c: Chain, venues: set<(uint32, Address)>, auth: set<Address>, user: Address, tokenIn: Address,
                               tokenOut: Address, routes: seq<SubRoute>, minOut: int128, replies: seq<Reply>)
    ensures var r := SwapRestricted(c, venues, auth, user, tokenIn, tokenOut, routes, minOut, replies);
            && (r.Ok? <==>
                && (forall i, j :: 0 <= i < |routes| && 0 <= j < |routes[i].steps| ==>
                      (DexTag(routes[i].steps[j].dexType), routes[i].steps[j].dexId) in venues)
                && Swap(c, auth, user, tokenIn, tokenOut, routes, minOut, replies).Ok?)
            && (r.Ok? ==> r == Swap(c, auth, user, tokenIn, tokenOut, routes, minOut, replies))
  {
    hide Swap, DexTag;
    assert AllRegistered(venues, routes) <==>
           (forall i, j :: 0 <= i < |routes| && 0 <= j < |routes[i].steps| ==> Registered(venues, routes[i].steps[j]));
  }

  lemma RoundTripChecksMean(auth: set<Address>, user: Address, base: Address, bridge: Address, amountIn: int128,
                            legOut: seq<SubRoute>, legBack: seq<SubRoute>, minOut: int128)
    ensures RoundTripChecks(auth, user, base, bridge, amountIn, legOut, legBack, minOut).Ok? <==>
            && user in auth && 0 < amountIn <= minOut && base != bridge && legOut != [] && legBack != []
            && ValidRoutes(legOut, base, bridge) && ValidRoutes(legBack, bridge, base)
            && Sum(Amounts(legOut)) == amountIn && Sum(Amounts(legBack)) <= I128_MAX
  {
    hide Validate, ValidRoutes, Sum, Amounts;
    Settlement.ValidateMeans(legOut, base, bridge);
    Settlement.ValidateMeans(legBack, bridge, base);
  }

  /** A round trip succeeds exactly when its user signed it, both legs lead there and back, the out leg's amounts sum to the
      input, which the user has and asks back at least, both legs run, the back leg rescaled to the proceeds, and the final payment
      can be made. */
  lemma RoundTripSucceeds(c: Chain, auth: set<Address>, user: Address, base: Address, bridge: Address, amountIn: int128,
                          legOut: seq<SubRoute>, legBack: seq<SubRoute>, minOut: int128, replies: seq<Reply>)
    requires user != Aggregator
    ensures RoundTrip(c, auth, user, base, bridge, amountIn, legOut, legBack, minOut, replies).Ok? <==>
            && user in auth && 0 < amountIn <= minOut && base != bridge && legOut != [] && legBack != []
            && ValidRoutes(legOut, base, bridge) && ValidRoutes(legBack, bridge, base)
            && Sum(Amounts(legOut)) == amountIn && Sum(Amounts(legBack)) <= I128_MAX
            && amountIn <= Balance(c, base, user) && Balance(c, base, Aggregator) + amountIn <= I128_MAX
            && var pulled := Transfer(c, base, user, Aggregator, amountIn);
               && pulled.Ok?
               && var there := SubRoutes(pulled.value, user, legOut, 0, replies, 0);
                  && there.Ok?
                  && var scaled := Rescale.ScaleSubRoutesToTotal(legBack, there.value.1);
                     && scaled.Ok?
                     && var again := SubRoutes(there.value.0, user, scaled.value, there.value.2, replies, HopsBefore(legOut, |legOut|));
                        && again.Ok? && again.value.1 >= minOut
                        && Balance(c, base, user) - amountIn + again.value.1 <= I128_MAX
                        && Balance(c, base, Aggregator) + Settlement.RoundTripExcess(legOut, legBack, replies, base) >= 0
  {
    hide RoundTripChecks, Validate, ValidRoutes, SubRoutes, Transfer, Balance, Moved, Sum, Amounts, HopsBefore,
         Rescale.ScaleSubRoutesToTotal, Settlement.RoundTripExcess;
    RoundTripChecksMean(auth, user, base, bridge, amountIn, legOut, legBack, minOut);
    TransferSucceeds(c, base, user, Aggregator, amountIn);
    var pulled := Transfer(c, base, user, Aggregator, amountIn);
    if RoundTripChecks(auth, user, base, bridge, amountIn, legOut, legBack, minOut).Ok? && pulled.Ok? {
      var there := SubRoutes(pulled.value, user, legOut, 0, replies, 0);
      if there.Ok? {
        var scaled := Rescale.ScaleSubRoutesToTotal(legBack, there.value.1);
        ScalingNeedsProceeds(legBack, there.value.1);
        if scaled.Ok? && SubRoutes(there.value.0, user, scaled.value, there.value.2, replies, HopsBefore(legOut, |legOut|)).Ok? {
          ReturnSucceeds(c, user, base, bridge, amountIn, legOut, legBack, replies);
        }
      }
    }
  }

  lemma ScalingNeedsProceeds(routes: seq<SubRoute>, total: int128)
    ensures Rescale.ScaleSubRoutesToTotal(routes, total).Ok? ==> total > 0
  {
  }

  lemma ReturnSucceeds(c: Chain, user: Address, base: Address, bridge: Address, amountIn: int128, legOut: seq<SubRoute>,
                       legBack: seq<SubRoute>, replies: seq<Reply>)
    requires user != Aggregator && base != bridge && ValidRoutes(legOut, base, bridge) && ValidRoutes(legBack, bridge, base)
    requires Transfer(c, base, user, Aggregator, amountIn).Ok? && Sum(Amounts(legOut)) == amountIn
    requires var pulled := Transfer(c, base, user, Aggregator, amountIn).value;
             && SubRoutes(pulled, user, legOut, 0, replies, 0).Ok?
             && var there := SubRoutes(pulled, user, legOut, 0, replies, 0).value;
                && Rescale.ScaleSubRoutesToTotal(legBack, there.1).Ok?
                && SubRoutes(there.0, user, Rescale.ScaleSubRoutesToTotal(legBack, there.1).value, there.2, replies,
                             HopsBefore(legOut, |legOut|)).Ok?
    ensures var pulled := Transfer(c, base, user, Aggregator, amountIn).value;
            var there := SubRoutes(pulled, user, legOut, 0, replies, 0).value;
            var (returned, out, _) := SubRoutes(there.0, user, Rescale.ScaleSubRoutesToTotal(legBack, there.1).value, there.2, replies,
                                                HopsBefore(legOut, |legOut|)).value;
            out >= 0 ==>
              (Transfer(returned, base, Aggregator, user, out).Ok? <==>
               && Balance(c, base, user) - amountIn + out <= I128_MAX
               && Balance(c, base, Aggregator) + Settlement.RoundTripExcess(legOut, legBack, replies, base) >= 0)
  {
    hide ValidRoutes, SubRoutes, Transfer, Balance, Sum, Amounts, HopsBefore, Rescale.ScaleSubRoutesToTotal, Settlement.RoutesExcess;
    var pulled := Transfer(c, base, user, Aggregator, amountIn).value;
    var (bridged, bridgeTotal, hops) := SubRoutes(pulled, user, legOut, 0, replies, 0).value;
    var scaled := Rescale.ScaleSubRoutesToTotal(legBack, bridgeTotal).value;
    var first := HopsBefore(legOut, |legOut|);
    var (returned, out, _) := SubRoutes(bridged, user, scaled, hops, replies, first).value;
    Settlement.Pulled(c, pulled, base, user, amountIn, base);
    Settlement.SubRoutesAccount(pulled, user, legOut, 0, replies, 0, base, bridge, base);
    Settlement.BystandersUnmoved(pulled, user, legOut, 0, replies, 0, base);
    Settlement.BackLegAccount(bridged, user, legBack, bridgeTotal, hops, replies, first, bridge, base, base);
    Settlement.BystandersUnmoved(bridged, user, scaled, hops, replies, first, base);
    TransferSucceeds(returned, base, Aggregator, user, out);
  }

  // ----- The vault -----

  /** The reclaim fails only where the vault cannot hold what comes back. */
  lemma ReclaimSucceeds(c: Chain, auth: set<Address>, caller: Address, base: Address, bridge: Address, amountIn: int128,
                        legOut: seq<SubRoute>, legBack: seq<SubRoute>, minOut: int128, replies: seq<Reply>, lent: Chain, traded: Chain,
                        total: int128)
    requires caller !in {Aggregator, Escrow, Vault}
    requires Transfer(Approve(c, base, caller, Vault, I128_MAX), base, Vault, caller, amountIn) == Ok(lent)
    requires RoundTrip(lent, auth, caller, base, bridge, amountIn, legOut, legBack, minOut, replies) == Ok((traded, total))
    ensures TransferFrom(traded, base, Vault, caller, Vault, total).Ok? <==> Balance(c, base, Vault) - amountIn + total <= I128_MAX
  {
    hide RoundTrip, Approve, Transfer, TransferFrom, Balance, Allowance, Settlement.RoundTripExcess;
    VaultModel.LoanMoves(c, base, caller, amountIn, lent, base);
    Settlement.RoundTripSettles(lent, auth, caller, base, bridge, amountIn, legOut, legBack, minOut, replies, traded, total, base);
    VaultModel.ReclaimIsAllowed(lent, auth, caller, base, bridge, amountIn, legOut, legBack, minOut, replies, traded, total);
    TransferFromSucceeds(traded, base, Vault, caller, Vault, total);
  }

  /** A lending succeeds exactly when an allow-listed caller signed it, asks back at least the principal, the allowance is not
      expired yet, the vault has the principal, the caller can hold it, the trade succeeds, and the vault can hold what comes
      back; the reclaim itself cannot fail. */
  lemma LendingSucceeds(c: Chain, callers: set<Address>, auth: set<Address>, now: uint32, caller: Address, base: Address,
                        bridge: Address, amountIn: int128, legOut: seq<SubRoute>, legBack: seq<SubRoute>, minOut: int128,
                        allowanceExpiry: uint32, replies: seq<Reply>)
    requires caller !in {Aggregator, Escrow, Vault}
    ensures VaultModel.ExecuteRoundTrip(c, callers, auth, now, caller, base, bridge, amountIn, legOut, legBack, minOut,
                                        allowanceExpiry, replies).Ok? <==>
            && caller in auth && caller in callers && 0 < amountIn <= minOut && now <= allowanceExpiry
            && amountIn <= Balance(c, base, Vault) && Balance(c, base, caller) + amountIn <= I128_MAX
            && var lent := Transfer(Approve(c, base, caller, Vault, I128_MAX), base, Vault, caller, amountIn);
               && lent.Ok?
               && var r := RoundTrip(lent.value, auth, caller, base, bridge, amountIn, legOut, legBack, minOut, replies);
                  r.Ok? && Balance(c, base, Vault) - amountIn + r.value.1 <= I128_MAX
  {
    hide RoundTrip, Approve, Transfer, TransferFrom, Balance, Moved;
    var approved := Approve(c, base, caller, Vault, I128_MAX);
    VaultModel.ApprovalKeepsBalances(c, base, caller, Vault, I128_MAX);
    TransferSucceeds(approved, base, Vault, caller, amountIn);
    var lent := Transfer(approved, base, Vault, caller, amountIn);
    if lent.Ok? {
      var r := RoundTrip(lent.value, auth, caller, base, bridge, amountIn, legOut, legBack, minOut, replies);
      if r.Ok? {
        ReclaimSucceeds(c, auth, caller, base, bridge, amountIn, legOut, legBack, minOut, replies, lent.value, r.value.0, r.value.1);
      }
    }
  }

  lemma DepositSucceeds(c: Chain, auth: set<Address>, from: Address, token: Address, amount: int128)
    ensures VaultModel.Deposit(c, auth, from, token, amount).Ok? <==>
            && from in auth && 0 < amount <= Balance(c, token, from)
            && (from == Vault || Balance(c, token, Vault) + amount <= I128_MAX)
  {
    hide Transfer, Balance;
    TransferSucceeds(c, token, from, Vault, amount);
  }

  lemma WithdrawSucceeds(c: Chain, isAdmin: bool, token: Address, to: Address, amount: int128)
    ensures VaultModel.AdminWithdraw(c, isAdmin, token, to, amount).Ok? <==>
            isAdmin && 0 < amount <= Balance(c, token, Vault) && (to == Vault || Balance(c, token, to) + amount <= I128_MAX)
  {
    hide Transfer, Balance;
    TransferSucceeds(c, token, Vault, to, amount);
  }

  // ----- Orders -----

  /** A limit order is created exactly when its owner signed, the amounts are positive, the tokens differ, the expiry lies
      within the next 518,400 ledgers, the owner has the input, the escrow can hold it, and an id is left. */
  lemma CreateLimitSucceeds(c: Chain, b: Book, auth: set<Address>, now: uint32, owner: Address, tokenIn: Address,
                            tokenOut: Address, amountIn: int128, limit: int128, expires: uint32)
    ensures CreateLimit(c, b, auth, now, owner, tokenIn, tokenOut, amountIn, limit, expires).Ok? <==>
            && owner in auth && limit > 0 && tokenIn != tokenOut && now < expires <= now + 518_400
            && 0 < amountIn <= Balance(c, tokenIn, owner) && (owner == Escrow || Balance(c, tokenIn, Escrow) + amountIn <= I128_MAX)
            && b.nextLimit < U64_MAX
  {
    hide Transfer, Balance;
    TransferSucceeds(c, tokenIn, owner, Escrow, amountIn);
  }

  lemma CreateDcaSucceeds(c: Chain, b: Book, auth: set<Address>, now: uint32, owner: Address, tokenIn: Address,
                          tokenOut: Address, amountIn: int128, chunk: int128, interval: uint32, start: uint32, minRate: int128,
                          expires: uint32)
    ensures CreateDca(c, b, auth, now, owner, tokenIn, tokenOut, amountIn, chunk, interval, start, minRate, expires).Ok? <==>
            && owner in auth && 0 < chunk <= amountIn && interval > 0 && minRate >= 0 && tokenIn != tokenOut
            && now <= start < expires <= now + 518_400
            && amountIn <= Balance(c, tokenIn, owner) && (owner == Escrow || Balance(c, tokenIn, Escrow) + amountIn <= I128_MAX)
            && b.nextDca < U64_MAX
  {
    hide Transfer, Balance;
    TransferSucceeds(c, tokenIn, owner, Escrow, amountIn);
  }

  /** A cancel succeeds exactly when the owner of an open order signed it and the refund can be paid; a reclaim, exactly after
      the expiry of one. */
  lemma CloseLimitSucceeds(c: Chain, b: Book, auth: set<Address>, now: uint32, id: uint64)
    requires ValidBook(b)
    ensures var refundable := id in b.limits && b.limits[id].status.Open?
                              && b.limits[id].remaining <= Balance(c, b.limits[id].tokenIn, Escrow)
                              && Balance(c, b.limits[id].tokenIn, b.limits[id].owner) + b.limits[id].remaining <= I128_MAX;
            && (Cancel(c, b, auth, now, id).Ok? <==> refundable && b.limits[id].owner in auth)
            && (Reclaim(c, b, now, id).Ok? <==> refundable && now > b.limits[id].expires)
  {
    hide Transfer, Balance;
    if id in b.limits {
      assert ValidLimit(b.limits[id]);
      TransferSucceeds(c, b.limits[id].tokenIn, Escrow, b.limits[id].owner, b.limits[id].remaining);
    }
  }

  lemma CloseDcaSucceeds(c: Chain, b: Book, auth: set<Address>, now: uint32, id: uint64)
    requires ValidBook(b)
    ensures var refundable := id in b.dcas && b.dcas[id].status.Open?
                              && b.dcas[id].remaining <= Balance(c, b.dcas[id].tokenIn, Escrow)
                              && Balance(c, b.dcas[id].tokenIn, b.dcas[id].owner) + b.dcas[id].remaining <= I128_MAX;
            && (CancelDca(c, b, auth, now, id).Ok? <==> refundable && b.dcas[id].owner in auth)
            && (ReclaimDca(c, b, now, id).Ok? <==> refundable && now > b.dcas[id].expires)
  {
    hide Transfer, Balance;
    if id in b.dcas {
      assert ValidDca(b.dcas[id]);
      TransferSucceeds(c, b.dcas[id].tokenIn, Escrow, b.dcas[id].owner, b.dcas[id].remaining);
    }
  }

  /** The minimum output meets the price: the input times the rate, in units of 1e-7 and rounded down, or, where that product
      is too large for the machine, the largest amount. */
  ghost predicate PriceMet(amountIn: Amount, rate: Amount, minOut: int128) {
    if amountIn * rate <= I128_MAX then amountIn * rate < (minOut + 1) * 10_000_000 else minOut == I128_MAX
  }

  lemma MinimumIsPrice(amountIn: Amount, rate: Amount, minOut: int128)
    ensures minOut >= RequiredMinOut(amountIn, rate) <==> PriceMet(amountIn, rate, minOut)
  {
    hide RequiredMinOut;
    OrderRuns.LimitPrice(amountIn, rate);
  }

  /** The routed amounts add up, checked sum by sum, exactly when positive amounts add up within the machine's range. */
  lemma {:induction false} RoutedSucceeds(routes: seq<SubRoute>, i: nat, acc: int128)
    requires i <= |routes| && acc == Sum(Amounts(routes)[..i]) && Sum(Amounts(routes)) <= I128_MAX
    requires forall k :: 0 <= k < |routes| ==> routes[k].amountIn > 0
    ensures RoutedFrom(routes, i, acc) == Ok(Sum(Amounts(routes)))
    decreases |routes| - i
  {
    var w := Amounts(routes);
    hide Sum, Amounts;
    if i == |routes| {
      assert w[..i] == w;
    } else {
      PartialSum(w, i + 1);
      RoutedSucceeds(routes, i + 1, acc + routes[i].amountIn);
    }
  }

  lemma RoutedIsAmount(routes: seq<SubRoute>, amountIn: int128)
    requires forall k :: 0 <= k < |routes| ==> routes[k].amountIn > 0
    ensures RoutedFrom(routes, 0, 0) == Ok(amountIn) <==> Sum(Amounts(routes)) == amountIn
  {
    hide Sum;
    RoutedIsSum(routes);
    if Sum(Amounts(routes)) <= I128_MAX {
      assert Amounts(routes)[..0] == [];
      assert Sum([]) == 0 by {
        SumOfNothing();
      }
      RoutedSucceeds(routes, 0, 0);
    }
  }

  lemma SumOfNothing()
    ensures Sum([]) == 0
  {
  }

  /** The swap of a fill and the payment of its proceeds succeed exactly when the swap does and the owner can hold them. */
  lemma SwapForOwnerSucceeds(c: Chain, venues: set<(uint32, Address)>, owner: Address, tokenIn: Address, tokenOut: Address,
                             routes: seq<SubRoute>, minOut: int128, replies: seq<Reply>)
    requires Outsider(owner)
    ensures var swap := SwapRestricted(c, venues, {Escrow}, Escrow, tokenIn, tokenOut, routes, minOut, replies);
            SwapForOwner(c, venues, owner, tokenIn, tokenOut, routes, minOut, replies).Ok? <==>
            swap.Ok? && Balance(swap.value.0, tokenOut, owner) + swap.value.1 <= I128_MAX
  {
    hide Swap, Transfer, Balance, AllRegistered, Sum, Amounts, Settlement.RoutesExcess;
    var swap := SwapRestricted(c, venues, {Escrow}, Escrow, tokenIn, tokenOut, routes, minOut, replies);
    if swap.Ok? {
      Settlement.SwapSettles(c, {Escrow}, Escrow, tokenIn, tokenOut, routes, minOut, replies, swap.value.0, swap.value.1, tokenOut);
      TransferSucceeds(swap.value.0, tokenOut, Escrow, owner, swap.value.1);
    }
  }

  lemma SwapNeedsPositive(c: Chain, venues: set<(uint32, Address)>, auth: set<Address>, user: Address, tokenIn: Address, tokenOut: Address,
                          routes: seq<SubRoute>, minOut: int128, replies: seq<Reply>)
    requires user != Aggregator && SwapRestricted(c, venues, auth, user, tokenIn, tokenOut, routes, minOut, replies).Ok?
    ensures forall k :: 0 <= k < |routes| ==> routes[k].amountIn > 0
  {
    hide Swap, SubRoutes, Transfer, Balance, AllRegistered, Sum, Amounts, ValidRoutes, Settlement.RoutesExcess;
    SwapSucceeds(c, auth, user, tokenIn, tokenOut, routes, minOut, replies);
    Settlement.RoutesPositive(routes, tokenIn, tokenOut);
  }

  /** A fill succeeds exactly when the order is open and not expired, the amount is positive, at most what is left and what the
      routes add up to, the minimum meets the price, the swap succeeds, and the owner can hold the proceeds. */
  lemma FillSucceeds(c: Chain, b: Book, venues: set<(uint32, Address)>, now: uint32, id: uint64, amountIn: int128,
                     routes: seq<SubRoute>, minOut: int128, replies: seq<Reply>)
    requires ValidBook(b)
    ensures Fill(c, b, venues, now, id, amountIn, routes, minOut, replies).Ok? <==>
            && id in b.limits
            && var o := b.limits[id];
               && o.status.Open? && now < o.expires && 0 < amountIn <= o.remaining && Sum(Amounts(routes)) == amountIn
               && PriceMet(amountIn, o.limit, minOut)
               && var swap := SwapRestricted(c, venues, {Escrow}, Escrow, o.tokenIn, o.tokenOut, routes, minOut, replies);
                  swap.Ok? && Balance(swap.value.0, o.tokenOut, o.owner) + swap.value.1 <= I128_MAX
  {
    hide SwapForOwner, SwapRestricted, RoutedFrom, RequiredMinOut, PriceMet, Sum, Amounts, Balance;
    if id in b.limits && 0 < amountIn <= b.limits[id].remaining {
      var o := b.limits[id];
      assert ValidLimit(o);
      MinimumIsPrice(amountIn, o.limit, minOut);
      SwapForOwnerSucceeds(c, venues, o.owner, o.tokenIn, o.tokenOut, routes, minOut, replies);
      if SwapRestricted(c, venues, {Escrow}, Escrow, o.tokenIn, o.tokenOut, routes, minOut, replies).Ok? {
        SwapNeedsPositive(c, venues, {Escrow}, Escrow, o.tokenIn, o.tokenOut, routes, minOut, replies);
        RoutedIsAmount(routes, amountIn);
      }
    }
  }

  /** A DCA fill succeeds exactly when the order is open, due and not expired, the routes add up to one chunk or what is left if
      that is less, the minimum meets the rate, or is positive where there is none, the swap succeeds, and the owner can hold
      the proceeds. */
  lemma FillDcaSucceeds(c: Chain, b: Book, venues: set<(uint32, Address)>, now: uint32, id: uint64, routes: seq<SubRoute>,
                        minOut: int128, replies: seq<Reply>)
    requires ValidBook(b)
    ensures FillDca(c, b, venues, now, id, routes, minOut, replies).Ok? <==>
            && id in b.dcas
            && var o := b.dcas[id];
               var due := if o.remaining < o.chunk then o.remaining else o.chunk;
               && o.status.Open? && o.next <= now < o.expires && Sum(Amounts(routes)) == due
               && (if o.minRate > 0 then PriceMet(due, o.minRate, minOut) else minOut > 0)
               && var swap := SwapRestricted(c, venues, {Escrow}, Escrow, o.tokenIn, o.tokenOut, routes, minOut, replies);
                  swap.Ok? && Balance(swap.value.0, o.tokenOut, o.owner) + swap.value.1 <= I128_MAX
  {
    hide SwapForOwner, SwapRestricted, RoutedFrom, RequiredMinOut, PriceMet, Sum, Amounts, Balance;
    if id in b.dcas {
      var o := b.dcas[id];
      assert ValidDca(o);
      MinimumIsPrice(ChunkDue(o), o.minRate, minOut);
      SwapForOwnerSucceeds(c, venues, o.owner, o.tokenIn, o.tokenOut, routes, minOut, replies);
      if SwapRestricted(c, venues, {Escrow}, Escrow, o.tokenIn, o.tokenOut, routes, minOut, replies).Ok? {
        SwapNeedsPositive(c, venues, {Escrow}, Escrow, o.tokenIn, o.tokenOut, routes, minOut, replies);
        RoutedIsAmount(routes, ChunkDue(o));
      }
    }
  }
}
