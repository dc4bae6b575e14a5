// What every successful aggregator call keeps: nothing of what passes through it stays behind.

module Settlement {
  import opened AggregatorModel
  import opened Base
  import opened Ledger
  import Rescale

  function When(condition: bool, x: int): int {
    if condition then x else 0
  }

  /** What a venue paid out beyond the number its arm reports. */
  function Overpaid(step: SwapStep, reply: Reply): int {
    if reply.Answers? && TrustsClaim(step.dexType) then reply.delivered - WrapToI128(reply.claimed) else 0
  }

  /** What a venue did not take of its input. */
  function NotTaken(reply: Reply): nat {
    if reply.Answers? then reply.left else 0
  }

  /** What a hop leaves with the aggregator in token t. */
  function Excess(step: SwapStep, reply: Reply, t: Address): int {
    When(t == step.tokenOut, Overpaid(step, reply)) + When(t == step.tokenIn, NotTaken(reply))
  }

  /** The venue takes its whole input, and its number is what it paid or its arm does not read it. */
  predicate Honest(step: SwapStep, reply: Reply) {
    Overpaid(step, reply) == 0 && NotTaken(reply) == 0
  }

  function HopsExcess(steps: seq<SwapStep>, i: nat, replies: seq<Reply>, first: nat, t: Address): int
    requires i <= |steps|
    decreases |steps| - i
  {
    if i == |steps| then 0
    else Excess(steps[i], ReplyAt(replies, first + i), t) + HopsExcess(steps, i + 1, replies, first, t)
  }

  function RoutesExcess(routes: seq<SubRoute>, i: nat, replies: seq<Reply>, first: nat, t: Address): int
    requires i <= |routes|
    decreases |routes| - i
  {
    if i == |routes| then 0
    else HopsExcess(routes[i].steps, 0, replies, first + HopsBefore(routes, i), t)
         + RoutesExcess(routes, i + 1, replies, first, t)
  }

  /** Every reply used from `first` on for these routes is honest. */
  ghost predicate HonestReplies(routes: seq<SubRoute>, replies: seq<Reply>, first: nat) {
    forall i, j :: 0 <= i < |routes| && 0 <= j < |routes[i].steps| ==>
      Honest(routes[i].steps[j], ReplyAt(replies, first + HopsBefore(routes, i) + j))
  }

  lemma {:induction false} HonestHopsLeaveNothing(steps: seq<SwapStep>, i: nat, replies: seq<Reply>, first: nat, t: Address)
    requires i <= |steps|
    requires forall j :: 0 <= j < |steps| ==> Honest(steps[j], ReplyAt(replies, first + j))
    ensures HopsExcess(steps, i, replies, first, t) == 0
    decreases |steps| - i
  {
    if i == |steps| {
    } else {
      HonestHopsLeaveNothing(steps, i + 1, replies, first, t);
    }
  }

  lemma {:induction false} HonestRoutesLeaveNothing(routes: seq<SubRoute>, i: nat, replies: seq<Reply>, first: nat, t: Address)
    requires i <= |routes| && HonestReplies(routes, replies, first)
    ensures RoutesExcess(routes, i, replies, first, t) == 0
    decreases |routes| - i
  {
    if i == |routes| {
    } else {
      HonestHopsLeaveNothing(routes[i].steps, 0, replies, first + HopsBefore(routes, i), t);
      HonestRoutesLeaveNothing(routes, i + 1, replies, first, t);
    }
  }

  // ----- Unrolling -----

  lemma HopsUnroll(c: Chain, user: Address, steps: seq<SwapStep>, i: nat, amount: int128, base: uint32,
                   replies: seq<Reply>, first: nat) returns (c1: Chain, out: int128)
    requires i < |steps| && Hops(c, user, steps, i, amount, base, replies, first).Ok?
    ensures steps[i].tokenIn != steps[i].tokenOut && out > 0
    ensures Step(c, user, steps[i], amount, SaturatingAdd32(base, ClampToU32(i)), ReplyAt(replies, first + i)) == Ok((c1, out))
    ensures Hops(c, user, steps, i, amount, base, replies, first) == Hops(c1, user, steps, i + 1, out, base, replies, first)
  {
    hide Step;
    var r := Step(c, user, steps[i], amount, SaturatingAdd32(base, ClampToU32(i)), ReplyAt(replies, first + i)).value;
    c1, out := r.0, r.1;
  }

  lemma RoutesUnroll(c: Chain, user: Address, routes: seq<SubRoute>, i: nat, total: int128, base: uint32,
                     replies: seq<Reply>, first: nat) returns (c1: Chain, out: int128)
    requires i < |routes| && Routes(c, user, routes, i, total, base, replies, first).Ok?
    ensures Path(c, user, routes[i], base, replies, first + HopsBefore(routes, i)) == Ok((c1, out))
    ensures I128_MIN <= total + out <= I128_MAX
    ensures Routes(c, user, routes, i, total, base, replies, first) == Routes(c1, user, routes, i + 1, total + out, base, replies, first)
  {
    hide Path;
    var r := Path(c, user, routes[i], base, replies, first + HopsBefore(routes, i)).value;
    c1, out := r.0, r.1;
  }

  // ----- Hops -----

  lemma StepInnerAccount(c: Chain, user: Address, step: SwapStep, amountIn: int128, reply: Reply, t: Address)
    requires StepInner(c, user, step, amountIn, reply).Ok? && step.tokenIn != step.tokenOut
    requires StepInner(c, user, step, amountIn, reply).value.1 > 0
    ensures var (c1, out) := StepInner(c, user, step, amountIn, reply).value;
            Balance(c1, t, Aggregator) == Balance(c, t, Aggregator) - When(t == step.tokenIn, amountIn)
              + When(t == step.tokenOut, out) + Excess(step, reply, t)
  {
    hide Transfer, Balance;
  }

  lemma StepAccount(c: Chain, user: Address, step: SwapStep, amountIn: int128, hop: uint32, reply: Reply, t: Address)
    requires Step(c, user, step, amountIn, hop, reply).Ok? && step.tokenIn != step.tokenOut
    requires Step(c, user, step, amountIn, hop, reply).value.1 > 0
    ensures var (c1, out) := Step(c, user, step, amountIn, hop, reply).value;
            Balance(c1, t, Aggregator) == Balance(c, t, Aggregator) - When(t == step.tokenIn, amountIn)
              + When(t == step.tokenOut, out) + Excess(step, reply, t)
  {
    hide StepInner, Balance, Excess, When;
    var paid := StepInner(c, user, step, amountIn, reply).value.0;
    StepInnerAccount(c, user, step, amountIn, reply, t);
    EmitKeepsBalances(paid, Leg(hop, DexTag(step.dexType), step.dexId, step.tokenIn, amountIn));
  }

  /** Holder a is not reached by the hop: no venue of it, or, like the user and the other contracts, unable to be one. */
  predicate OutsideStep(step: SwapStep, user: Address, a: Address) {
    a != Aggregator && (a.Account? || a == user || a == Escrow || a == Vault || step.dexId != a)
  }

  /** Holder a is not reached by any hop of these routes. */
  ghost predicate Outside(routes: seq<SubRoute>, user: Address, a: Address) {
    a != Aggregator && forall i :: 0 <= i < |routes| ==> OutsidePath(routes[i].steps, user, a)
  }

  ghost predicate OutsidePath(steps: seq<SwapStep>, user: Address, a: Address) {
    forall j :: 0 <= j < |steps| ==> OutsideStep(steps[j], user, a)
  }

  /** What a hop does to every holder, arm by arm: the aggregator hands over what the venue takes and gets what it delivers. */
  lemma HopMoves(c: Chain, user: Address, step: SwapStep, amountIn: int128, reply: Reply, t: Address, a: Address)
    requires StepInner(c, user, step, amountIn, reply).Ok?
    ensures reply.Answers?
    ensures var (c1, out) := StepInner(c, user, step, amountIn, reply).value;
            if step.dexType.SoroswapPair? && PairQuote(step, amountIn, reply) <= 0 then c1 == c && out == 0
            else Balance(c1, t, a) == Balance(c, t, a) + Moved(step.tokenIn, Aggregator, step.dexId, amountIn - reply.left, t, a)
                                      + Moved(step.tokenOut, step.dexId, Aggregator, reply.delivered, t, a)
  {
    hide Transfer, Balance, Moved, PairQuote, MayLeave, TrustsClaim, NotVenues;
  }

  /** What a hop reports, arm by arm. */
  lemma HopReports(c: Chain, user: Address, step: SwapStep, amountIn: int128, reply: Reply)
    requires StepInner(c, user, step, amountIn, reply).Ok? && step.tokenIn != step.tokenOut
    ensures var out := StepInner(c, user, step, amountIn, reply).value.1;
            match step.dexType
            case Aquarius => out == if reply.claimed < 0x8000_0000_0000_0000_0000_0000_0000_0000 then reply.claimed
                                    else reply.claimed - 0x1_0000_0000_0000_0000_0000_0000_0000_0000
            case CometDex => out == if reply.claimed < 0x8000_0000_0000_0000_0000_0000_0000_0000 then reply.claimed
                                    else reply.claimed - 0x1_0000_0000_0000_0000_0000_0000_0000_0000
            case Phoenix => out == reply.delivered
            case Sushi => out == reply.delivered
            case SoroswapPair => out == if PairQuote(step, amountIn, reply) > 0 then reply.delivered else 0
  {
    hide Transfer, Balance, PairQuote;
  }

  /** No hop touches a holder outside it. */
  lemma StepTouchesVenueOnly(c: Chain, user: Address, step: SwapStep, amountIn: int128, hop: uint32, reply: Reply,
                             t: Address, a: Address)
    requires Step(c, user, step, amountIn, hop, reply).Ok? && OutsideStep(step, user, a)
    ensures var c1 := Step(c, user, step, amountIn, hop, reply).value.0;
            Balance(c1, t, a) == Balance(c, t, a) && c1.allowances == c.allowances
  {
    hide Balance;
    var paid := StepInner(c, user, step, amountIn, reply).value.0;
    EmitKeepsBalances(paid, Leg(hop, DexTag(step.dexType), step.dexId, step.tokenIn, amountIn));
  }

  lemma {:induction false} HopsAccount(c: Chain, user: Address, steps: seq<SwapStep>, i: nat, amount: int128, base: uint32,
                                       replies: seq<Reply>, first: nat, t: Address)
    requires i <= |steps| && (forall j :: 0 < j < |steps| ==> steps[j - 1].tokenOut == steps[j].tokenIn)
    requires Hops(c, user, steps, i, amount, base, replies, first).Ok?
    ensures var (c1, out) := Hops(c, user, steps, i, amount, base, replies, first).value;
            Balance(c1, t, Aggregator) == Balance(c, t, Aggregator) + HopsExcess(steps, i, replies, first, t)
              - When(i < |steps| && t == steps[i].tokenIn, amount)
              + When(i < |steps| && t == steps[|steps| - 1].tokenOut, out)
    decreases |steps| - i
  {
    if i == |steps| {
    } else {
      hide Step, Balance;
      var c1, out := HopsUnroll(c, user, steps, i, amount, base, replies, first);
      hide Hops;
      StepAccount(c, user, steps[i], amount, SaturatingAdd32(base, ClampToU32(i)), ReplyAt(replies, first + i), t);
      HopsAccount(c1, user, steps, i + 1, out, base, replies, first, t);
    }
  }

  lemma {:induction false} HopsTouchVenuesOnly(c: Chain, user: Address, steps: seq<SwapStep>, i: nat, amount: int128,
                                               base: uint32, replies: seq<Reply>, first: nat, t: Address, a: Address)
    requires i <= |steps| && OutsidePath(steps, user, a)
    requires Hops(c, user, steps, i, amount, base, replies, first).Ok?
    ensures var c1 := Hops(c, user, steps, i, amount, base, replies, first).value.0;
            Balance(c1, t, a) == Balance(c, t, a) && c1.allowances == c.allowances
    decreases |steps| - i
  {
    if i == |steps| {
    } else {
      hide Step, OutsideStep, Balance;
      var c1, out := HopsUnroll(c, user, steps, i, amount, base, replies, first);
      hide Hops;
      StepTouchesVenueOnly(c, user, steps[i], amount, SaturatingAdd32(base, ClampToU32(i)), ReplyAt(replies, first + i), t, a);
      HopsTouchVenuesOnly(c1, user, steps, i + 1, out, base, replies, first, t, a);
    }
  }

  // ----- Sub-routes -----

  lemma PathAccount(c: Chain, user: Address, route: SubRoute, base: uint32, replies: seq<Reply>, first: nat,
                    tokenIn: Address, tokenOut: Address, t: Address)
    requires ValidRoute(route, tokenIn, tokenOut) && Path(c, user, route, base, replies, first).Ok?
    ensures var (c1, out) := Path(c, user, route, base, replies, first).value;
            Balance(c1, t, Aggregator) == Balance(c, t, Aggregator) + HopsExcess(route.steps, 0, replies, first, t)
              - When(t == tokenIn, route.amountIn) + When(t == tokenOut, out)
  {
    hide Hops, HopsExcess, Balance;
    HopsAccount(c, user, route.steps, 0, route.amountIn, base, replies, first, t);
  }

  lemma {:induction false} RoutesAccount(c: Chain, user: Address, routes: seq<SubRoute>, i: nat, total: int128, base: uint32,
                                         replies: seq<Reply>, first: nat, tokenIn: Address, tokenOut: Address, t: Address)
    requires i <= |routes| && ValidRoutes(routes, tokenIn, tokenOut)
    requires Routes(c, user, routes, i, total, base, replies, first).Ok?
    ensures var (c1, out) := Routes(c, user, routes, i, total, base, replies, first).value;
            Balance(c1, t, Aggregator) == Balance(c, t, Aggregator) + RoutesExcess(routes, i, replies, first, t)
              - When(t == tokenIn, Sum(Amounts(routes)) - Sum(Amounts(routes)[..i]))
              + When(t == tokenOut, out - total)
    decreases |routes| - i
  {
    var w := Amounts(routes);
    hide Sum, Amounts, Path, HopsExcess, ValidRoute, HopsBefore, Balance;
    if i == |routes| {
      assert w[..i] == w;
    } else {
      var c1, out := RoutesUnroll(c, user, routes, i, total, base, replies, first);
      hide Routes;
      PathAccount(c, user, routes[i], base, replies, first + HopsBefore(routes, i), tokenIn, tokenOut, t);
      RoutesAccount(c1, user, routes, i + 1, total + out, base, replies, first, tokenIn, tokenOut, t);
      SumTake(w, i);
    }
  }

  lemma PathTouchesVenuesOnly(c: Chain, user: Address, route: SubRoute, base: uint32, replies: seq<Reply>, first: nat,
                              t: Address, a: Address)
    requires OutsidePath(route.steps, user, a)
    requires Path(c, user, route, base, replies, first).Ok?
    ensures var c1 := Path(c, user, route, base, replies, first).value.0;
            Balance(c1, t, a) == Balance(c, t, a) && c1.allowances == c.allowances
  {
    hide Hops, OutsidePath, Balance;
    HopsTouchVenuesOnly(c, user, route.steps, 0, route.amountIn, base, replies, first, t, a);
  }

  lemma OutsideAt(routes: seq<SubRoute>, i: nat, user: Address, a: Address)
    requires i < |routes| && Outside(routes, user, a)
    ensures OutsidePath(routes[i].steps, user, a)
  {
    hide OutsidePath;
  }

  lemma {:induction false} RoutesTouchVenuesOnly(c: Chain, user: Address, routes: seq<SubRoute>, i: nat, total: int128,
                                                 base: uint32, replies: seq<Reply>, first: nat, t: Address, a: Address)
    requires i <= |routes| && Outside(routes, user, a)
    requires Routes(c, user, routes, i, total, base, replies, first).Ok?
    ensures var c1 := Routes(c, user, routes, i, total, base, replies, first).value.0;
            Balance(c1, t, a) == Balance(c, t, a) && c1.allowances == c.allowances
    decreases |routes| - i
  {
    hide Path, Outside, HopsBefore, Balance, CheckedAdd;
    if i == |routes| {
    } else {
      var c1, out := RoutesUnroll(c, user, routes, i, total, base, replies, first);
      hide Routes;
      OutsideAt(routes, i, user, a);
      PathTouchesVenuesOnly(c, user, routes[i], base, replies, first + HopsBefore(routes, i), t, a);
      RoutesTouchVenuesOnly(c1, user, routes, i + 1, total + out, base, replies, first, t, a);
    }
  }

  // ----- Validation -----

  lemma {:induction false} ConnectedFromMeans(steps: seq<SwapStep>, j: nat)
    requires 1 <= j
    ensures ConnectedFrom(steps, j) <==> forall k :: j <= k < |steps| ==> steps[k - 1].tokenOut == steps[k].tokenIn
    decreases |steps| - j
  {
    if j >= |steps| {
    } else {
      ConnectedFromMeans(steps, j + 1);
    }
  }

  lemma RoutesPositive(routes: seq<SubRoute>, tokenIn: Address, tokenOut: Address)
    requires ValidRoutes(routes, tokenIn, tokenOut)
    ensures forall k :: 0 <= k < |routes| ==> routes[k].amountIn > 0
  {
    forall k | 0 <= k < |routes|
      ensures routes[k].amountIn > 0
    {
      assert ValidRoute(routes[k], tokenIn, tokenOut);
    }
  }

  lemma ValidateRouteMeans(route: SubRoute, tokenIn: Address, tokenOut: Address, total: int128)
    ensures var r := ValidateRoute(route, tokenIn, tokenOut, total);
            && (r.Ok? <==> ValidRoute(route, tokenIn, tokenOut) && total + route.amountIn <= I128_MAX)
            && (r.Ok? ==> r.value == total + route.amountIn)
  {
    ConnectedFromMeans(route.steps, 1);
  }

  lemma {:induction false} ValidateFromMeans(routes: seq<SubRoute>, tokenIn: Address, tokenOut: Address, i: nat, total: int128)
    requires i <= |routes| && total == Sum(Amounts(routes)[..i])
    requires forall k :: 0 <= k < i ==> ValidRoute(routes[k], tokenIn, tokenOut)
    ensures var r := ValidateFrom(routes, tokenIn, tokenOut, i, total);
            && (r.Ok? <==> ValidRoutes(routes, tokenIn, tokenOut) && Sum(Amounts(routes)) <= I128_MAX)
            && (r.Ok? ==> r.value == Sum(Amounts(routes)))
    decreases |routes| - i
  {
    var w := Amounts(routes);
    hide Sum, Leads;
    if i == |routes| {
      assert w[..i] == w;
    } else {
      ValidateRouteMeans(routes[i], tokenIn, tokenOut, total);
      SumTake(w, i);
      hide ValidateRoute, ValidRoute;
      var r := ValidateRoute(routes[i], tokenIn, tokenOut, total);
      if r.Ok? {
        assert ValidRoute(routes[i], tokenIn, tokenOut);
        ValidateFromMeans(routes, tokenIn, tokenOut, i + 1, r.value);
      } else if ValidRoutes(routes, tokenIn, tokenOut) {
        RoutesPositive(routes, tokenIn, tokenOut);
        SumPrefix(w, i + 1);
      }
    }
  }

  /** Validation succeeds exactly on non-empty lists of positive, connected routes between the
      two tokens whose amounts add up within `i128`, and returns that sum. */
  lemma ValidateMeans(routes: seq<SubRoute>, tokenIn: Address, tokenOut: Address)
    ensures var r := Validate(routes, tokenIn, tokenOut);
            && (r.Ok? <==> routes != [] && ValidRoutes(routes, tokenIn, tokenOut) && Sum(Amounts(routes)) <= I128_MAX)
            && (r.Ok? ==> r.value == Sum(Amounts(routes)))
  {
    if routes != [] {
      assert Amounts(routes)[..0] == [];
      ValidateFromMeans(routes, tokenIn, tokenOut, 0, 0);
    }
  }

  // ----- Entry points -----

  lemma SubRoutesAccount(c: Chain, user: Address, routes: seq<SubRoute>, base: uint32, replies: seq<Reply>, first: nat,
                         tokenIn: Address, tokenOut: Address, t: Address)
    requires ValidRoutes(routes, tokenIn, tokenOut)
    requires SubRoutes(c, user, routes, base, replies, first).Ok?
    ensures var (c1, out, _) := SubRoutes(c, user, routes, base, replies, first).value;
            Balance(c1, t, Aggregator) == Balance(c, t, Aggregator) + RoutesExcess(routes, 0, replies, first, t)
              - When(t == tokenIn, Sum(Amounts(routes))) + When(t == tokenOut, out)
  {
    hide Routes, RoutesExcess, Balance, Amounts, ValidRoutes;
    RoutesAccount(c, user, routes, 0, 0, base, replies, first, tokenIn, tokenOut, t);
    assert Amounts(routes)[..0] == [];
  }

  lemma SubRoutesTouchVenuesOnly(c: Chain, user: Address, routes: seq<SubRoute>, base: uint32, replies: seq<Reply>,
                                 first: nat, t: Address, a: Address)
    requires Outside(routes, user, a)
    requires SubRoutes(c, user, routes, base, replies, first).Ok?
    ensures var c1 := SubRoutes(c, user, routes, base, replies, first).value.0;
            Balance(c1, t, a) == Balance(c, t, a) && c1.allowances == c.allowances
  {
    hide Routes, Outside, Balance;
    RoutesTouchVenuesOnly(c, user, routes, 0, 0, base, replies, first, t, a);
  }

  /** What a successful swap does to one token: the aggregator keeps exactly the venues' excess, the user pays the input and
      receives the output, and the other contracts see nothing. */
  ghost predicate Settled(before: Chain, after: Chain, user: Address, tokenIn: Address, tokenOut: Address,
                          amountIn: int, out: int, excess: int, t: Address) {
    && Balance(after, t, Aggregator) == Balance(before, t, Aggregator) + excess
    && Balance(after, t, user) == Balance(before, t, user) - When(t == tokenIn, amountIn) + When(t == tokenOut, out)
    && (user != Escrow ==> Balance(after, t, Escrow) == Balance(before, t, Escrow))
    && (user != Vault ==> Balance(after, t, Vault) == Balance(before, t, Vault))
  }

  /** A payment between the aggregator and the user, of so much in token t, that moves nothing else. */
  ghost predicate Flow(c: Chain, c': Chain, user: Address, amount: int, t: Address) {
    && Balance(c', t, Aggregator) == Balance(c, t, Aggregator) + amount
    && Balance(c', t, user) == Balance(c, t, user) - amount
    && (user != Escrow ==> Balance(c', t, Escrow) == Balance(c, t, Escrow))
    && (user != Vault ==> Balance(c', t, Vault) == Balance(c, t, Vault))
    && c'.allowances == c.allowances
  }

  lemma Pulled(c: Chain, c': Chain, token: Address, user: Address, amount: int, t: Address)
    requires user != Aggregator && Transfer(c, token, user, Aggregator, amount) == Ok(c')
    ensures Flow(c, c', user, When(t == token, amount), t)
  {
    hide Transfer, Balance;
  }

  lemma PaidOut(c: Chain, c': Chain, token: Address, user: Address, amount: int, e: AggregatorEvent, t: Address)
    requires user != Aggregator && Transfer(c, token, Aggregator, user, amount).Ok?
    requires c' == Emit(Transfer(c, token, Aggregator, user, amount).value, e)
    ensures Flow(c, c', user, -When(t == token, amount), t)
  {
    hide Transfer, Balance;
    EmitKeepsBalances(Transfer(c, token, Aggregator, user, amount).value, e);
  }

  /** The movements of a swap: the input, the hops and the payment. */
  lemma SwapFlows(c: Chain, auth: set<Address>, user: Address, tokenIn: Address, tokenOut: Address,
                  routes: seq<SubRoute>, minOut: int128, replies: seq<Reply>, c': Chain, out: int128, t: Address)
    returns (pulled: Chain, swapped: Chain, hops: uint32)
    requires user != Aggregator
    requires Swap(c, auth, user, tokenIn, tokenOut, routes, minOut, replies) == Ok((c', out))
    ensures ValidRoutes(routes, tokenIn, tokenOut) && tokenIn != tokenOut && out >= minOut > 0 && Sum(Amounts(routes)) > 0
    ensures Flow(c, pulled, user, When(t == tokenIn, Sum(Amounts(routes))), t)
    ensures SubRoutes(pulled, user, routes, 0, replies, 0) == Ok((swapped, out, hops))
    ensures Flow(swapped, c', user, -When(t == tokenOut, out), t)
  {
    hide Swap, Balance, Transfer, When, ValidRoutes, SubRoutes, Amounts, Sum, Flow;
    var paid: Chain;
    pulled, swapped, paid, hops := SwapUnroll(c, auth, user, tokenIn, tokenOut, routes, minOut, replies, c', out);
    TotalPositive(routes, tokenIn, tokenOut);
    Pulled(c, pulled, tokenIn, user, Sum(Amounts(routes)), t);
    PaidOut(swapped, c', tokenOut, user, out, SwapDone(user, tokenIn, tokenOut, Sum(Amounts(routes)), out, |routes|), t);
  }

  /** Zero residue, in exact form: a successful swap returns at least the minimum, takes exactly the
      sum of the route amounts, and changes the aggregator's balance by the venues' excess alone. */
  lemma SwapSettles(c: Chain, auth: set<Address>, user: Address, tokenIn: Address, tokenOut: Address,
                    routes: seq<SubRoute>, minOut: int128, replies: seq<Reply>, c': Chain, out: int128, t: Address)
    requires user != Aggregator
    requires Swap(c, auth, user, tokenIn, tokenOut, routes, minOut, replies) == Ok((c', out))
    ensures && Settled(c, c', user, tokenIn, tokenOut, Sum(Amounts(routes)), out, RoutesExcess(routes, 0, replies, 0, t), t)
            && out >= minOut > 0 && Sum(Amounts(routes)) > 0 && tokenIn != tokenOut
            && c'.allowances == c.allowances
  {
    hide Swap, Balance, When, ValidRoutes, SubRoutes, RoutesExcess, Amounts, Sum;
    var pulled, swapped, hops := SwapFlows(c, auth, user, tokenIn, tokenOut, routes, minOut, replies, c', out, t);
    SubRoutesAccount(pulled, user, routes, 0, replies, 0, tokenIn, tokenOut, t);
    BystandersUnmoved(pulled, user, routes, 0, replies, 0, t);
  }

  lemma SwapUnroll(c: Chain, auth: set<Address>, user: Address, tokenIn: Address, tokenOut: Address, routes: seq<SubRoute>,
                   minOut: int128, replies: seq<Reply>, c': Chain, out: int128)
    returns (pulled: Chain, swapped: Chain, paid: Chain, hops: uint32)
    requires Swap(c, auth, user, tokenIn, tokenOut, routes, minOut, replies) == Ok((c', out))
    ensures routes != [] && ValidRoutes(routes, tokenIn, tokenOut) && tokenIn != tokenOut && out >= minOut > 0
    ensures Transfer(c, tokenIn, user, Aggregator, Sum(Amounts(routes))) == Ok(pulled)
    ensures SubRoutes(pulled, user, routes, 0, replies, 0) == Ok((swapped, out, hops))
    ensures Transfer(swapped, tokenOut, Aggregator, user, out) == Ok(paid)
    ensures c' == Emit(paid, SwapDone(user, tokenIn, tokenOut, Sum(Amounts(routes)), out, |routes|))
    ensures c'.allowances == paid.allowances && forall t, a :: Balance(c', t, a) == Balance(paid, t, a)
  {
    hide Balance, Transfer, Validate, ValidRoutes, SubRoutes, Amounts, Sum;
    ValidateMeans(routes, tokenIn, tokenOut);
    pulled := Transfer(c, tokenIn, user, Aggregator, Sum(Amounts(routes))).value;
    var r := SubRoutes(pulled, user, routes, 0, replies, 0).value;
    swapped, hops := r.0, r.2;
    paid := Transfer(swapped, tokenOut, Aggregator, user, out).value;
    EmitKeepsBalances(paid, SwapDone(user, tokenIn, tokenOut, Sum(Amounts(routes)), out, |routes|));
  }

  lemma EmitKeepsBalances(c: Chain, e: AggregatorEvent)
    ensures forall t, a :: Balance(Emit(c, e), t, a) == Balance(c, t, a)
  {
  }

  lemma BystandersUnmoved(c: Chain, user: Address, routes: seq<SubRoute>, base: uint32, replies: seq<Reply>, first: nat, t: Address)
    requires user != Aggregator && SubRoutes(c, user, routes, base, replies, first).Ok?
    ensures var c1 := SubRoutes(c, user, routes, base, replies, first).value.0;
            && Balance(c1, t, user) == Balance(c, t, user)
            && Balance(c1, t, Escrow) == Balance(c, t, Escrow)
            && Balance(c1, t, Vault) == Balance(c, t, Vault)
            && c1.allowances == c.allowances
  {
    hide Balance, SubRoutes;
    SubRoutesTouchVenuesOnly(c, user, routes, base, replies, first, t, user);
    SubRoutesTouchVenuesOnly(c, user, routes, base, replies, first, t, Escrow);
    SubRoutesTouchVenuesOnly(c, user, routes, base, replies, first, t, Vault);
  }

  lemma TotalPositive(routes: seq<SubRoute>, tokenIn: Address, tokenOut: Address)
    requires routes != [] && ValidRoutes(routes, tokenIn, tokenOut)
    ensures Sum(Amounts(routes)) > 0
  {
    RoutesPositive(routes, tokenIn, tokenOut);
    SumPositive(Amounts(routes));
  }

  /** A swap moves the input from the user and the output to the user; no other holder outside its routes sees it. */
  lemma SwapMoves(c: Chain, auth: set<Address>, user: Address, tokenIn: Address, tokenOut: Address, routes: seq<SubRoute>,
                  minOut: int128, replies: seq<Reply>, c': Chain, out: int128, t: Address, a: Address)
    requires user != Aggregator && Outside(routes, user, a)
    requires Swap(c, auth, user, tokenIn, tokenOut, routes, minOut, replies) == Ok((c', out))
    ensures Balance(c', t, a) == Balance(c, t, a) - When(a == user && t == tokenIn, Sum(Amounts(routes)))
                                 + When(a == user && t == tokenOut, out)
  {
    hide Swap, Balance, Transfer, ValidRoutes, SubRoutes, Outside, Amounts, Sum;
    var pulled, swapped, paid, hops := SwapUnroll(c, auth, user, tokenIn, tokenOut, routes, minOut, replies, c', out);
    SubRoutesTouchVenuesOnly(pulled, user, routes, 0, replies, 0, t, a);
    assert a != Aggregator by {
      OutsideMeans(routes, user, a);
    }
  }

  lemma OutsideMeans(routes: seq<SubRoute>, user: Address, a: Address)
    requires Outside(routes, user, a)
    ensures a != Aggregator
  {
  }

  /** With honest venues nothing stays behind in any token. */
  lemma SwapLeavesNothing(c: Chain, auth: set<Address>, user: Address, tokenIn: Address, tokenOut: Address,
                          routes: seq<SubRoute>, minOut: int128, replies: seq<Reply>, c': Chain, out: int128, t: Address)
    requires user != Aggregator && HonestReplies(routes, replies, 0)
    requires Swap(c, auth, user, tokenIn, tokenOut, routes, minOut, replies) == Ok((c', out))
    ensures Balance(c', t, Aggregator) == Balance(c, t, Aggregator)
  {
    hide Swap, Balance;
    SwapSettles(c, auth, user, tokenIn, tokenOut, routes, minOut, replies, c', out, t);
    HonestRoutesLeaveNothing(routes, 0, replies, 0, t);
  }

  // ----- Round trips -----

  lemma {:induction false} SameStepsSameHops(a: seq<SubRoute>, b: seq<SubRoute>, i: nat)
    requires i <= |a| == |b| && forall k :: 0 <= k < |a| ==> a[k].steps == b[k].steps
    ensures HopsBefore(a, i) == HopsBefore(b, i)
  {
    if i == 0 {
    } else {
      SameStepsSameHops(a, b, i - 1);
    }
  }

  lemma {:induction false} SameStepsSameExcess(a: seq<SubRoute>, b: seq<SubRoute>, i: nat, replies: seq<Reply>, first: nat, t: Address)
    requires i <= |a| == |b| && forall k :: 0 <= k < |a| ==> a[k].steps == b[k].steps
    ensures RoutesExcess(a, i, replies, first, t) == RoutesExcess(b, i, replies, first, t)
    decreases |a| - i
  {
    hide HopsBefore, HopsExcess;
    if i == |a| {
    } else {
      SameStepsSameHops(a, b, i);
      SameStepsSameExcess(a, b, i + 1, replies, first, t);
    }
  }

  /** Rescaled back legs still lead from the bridge to the base. */
  lemma ScaledRoutesValid(routes: seq<SubRoute>, total: int128, tokenIn: Address, tokenOut: Address)
    requires ValidRoutes(routes, tokenIn, tokenOut) && Rescale.ScaleSubRoutesToTotal(routes, total).Ok?
    ensures ValidRoutes(Rescale.ScaleSubRoutesToTotal(routes, total).value, tokenIn, tokenOut)
  {
    hide Rescale.ScaleSubRoutesToTotal, Leads, Amounts;
    Rescale.ScaledRoutesAreExact(routes, total);
    var scaled := Rescale.ScaleSubRoutesToTotal(routes, total).value;
    forall k | 0 <= k < |scaled|
      ensures ValidRoute(scaled[k], tokenIn, tokenOut)
    {
      assert ValidRoute(routes[k], tokenIn, tokenOut);
    }
  }

  /** What all venues of a round trip together leave with the aggregator in token t. */
  function RoundTripExcess(legOut: seq<SubRoute>, legBack: seq<SubRoute>, replies: seq<Reply>, t: Address): int {
    RoutesExcess(legOut, 0, replies, 0, t) + RoutesExcess(legBack, 0, replies, HopsBefore(legOut, |legOut|), t)
  }

  lemma BackLegAccount(c: Chain, user: Address, legBack: seq<SubRoute>, total: int128, hops: uint32, replies: seq<Reply>,
                       first: nat, bridge: Address, base: Address, t: Address)
    requires ValidRoutes(legBack, bridge, base) && Rescale.ScaleSubRoutesToTotal(legBack, total).Ok?
    requires var scaled := Rescale.ScaleSubRoutesToTotal(legBack, total).value;
             SubRoutes(c, user, scaled, hops, replies, first).Ok?
    ensures var scaled := Rescale.ScaleSubRoutesToTotal(legBack, total).value;
            var (c1, out, _) := SubRoutes(c, user, scaled, hops, replies, first).value;
            Balance(c1, t, Aggregator) == Balance(c, t, Aggregator) + RoutesExcess(legBack, 0, replies, first, t)
              - When(t == bridge, total) + When(t == base, out)
  {
    hide Rescale.ScaleSubRoutesToTotal, SubRoutes, RoutesExcess, Balance, Amounts, Sum, ValidRoutes;
    var scaled := Rescale.ScaleSubRoutesToTotal(legBack, total).value;
    ScaledRoutesValid(legBack, total, bridge, base);
    Rescale.ScaledRoutesAreExact(legBack, total);
    SubRoutesAccount(c, user, scaled, hops, replies, first, bridge, base, t);
    SameStepsSameExcess(scaled, legBack, 0, replies, first, t);
  }

  /** The movements of a round trip: the input, both legs and the payment. */
  lemma RoundTripFlows(c: Chain, auth: set<Address>, user: Address, base: Address, bridge: Address, amountIn: int128,
                       legOut: seq<SubRoute>, legBack: seq<SubRoute>, minOut: int128, replies: seq<Reply>,
                       c': Chain, out: int128, t: Address) returns (r: Trip)
    requires user != Aggregator
    requires RoundTrip(c, auth, user, base, bridge, amountIn, legOut, legBack, minOut, replies) == Ok((c', out))
    ensures amountIn == Sum(Amounts(legOut)) && out >= minOut >= amountIn > 0
    ensures ValidRoutes(legOut, base, bridge) && ValidRoutes(legBack, bridge, base)
    ensures Flow(c, r.pulled, user, When(t == base, amountIn), t)
    ensures SubRoutes(r.pulled, user, legOut, 0, replies, 0) == Ok((r.bridged, r.bridgeTotal, r.hops))
    ensures Rescale.ScaleSubRoutesToTotal(legBack, r.bridgeTotal) == Ok(r.scaled)
    ensures SubRoutes(r.bridged, user, r.scaled, r.hops, replies, HopsBefore(legOut, |legOut|)) == Ok((r.returned, out, r.depth))
    ensures Flow(r.returned, c', user, -When(t == base, out), t)
  {
    hide RoundTrip, Balance, Transfer, When, ValidRoutes, SubRoutes, HopsBefore, Amounts, Sum, Rescale.ScaleSubRoutesToTotal, Flow;
    r := RoundTripUnroll(c, auth, user, base, bridge, amountIn, legOut, legBack, minOut, replies, c', out);
    Pulled(c, r.pulled, base, user, amountIn, t);
    PaidOut(r.returned, c', base, user, out,
            RoundTripDone(user, base, bridge, amountIn, out, r.depth, |legOut| > 1 || |legBack| > 1), t);
  }

  /** Zero residue for the round trip: the bridge proceeds are spent to the last unit, the user ends
      with at least the minimum, and the aggregator keeps the venues' excess alone. */
  lemma RoundTripSettles(c: Chain, auth: set<Address>, user: Address, base: Address, bridge: Address, amountIn: int128,
                         legOut: seq<SubRoute>, legBack: seq<SubRoute>, minOut: int128, replies: seq<Reply>,
                         c': Chain, out: int128, t: Address)
    requires user != Aggregator
    requires RoundTrip(c, auth, user, base, bridge, amountIn, legOut, legBack, minOut, replies) == Ok((c', out))
    ensures && Settled(c, c', user, base, base, amountIn, out, RoundTripExcess(legOut, legBack, replies, t), t)
            && out >= minOut >= amountIn > 0
            && c'.allowances == c.allowances
  {
    hide RoundTrip, Balance, When, ValidRoutes, SubRoutes, RoutesExcess, HopsBefore, Amounts, Sum, Rescale.ScaleSubRoutesToTotal;
    var r := RoundTripFlows(c, auth, user, base, bridge, amountIn, legOut, legBack, minOut, replies, c', out, t);
    var first := HopsBefore(legOut, |legOut|);
    SubRoutesAccount(r.pulled, user, legOut, 0, replies, 0, base, bridge, t);
    BystandersUnmoved(r.pulled, user, legOut, 0, replies, 0, t);
    BackLegAccount(r.bridged, user, legBack, r.bridgeTotal, r.hops, replies, first, bridge, base, t);
    BystandersUnmoved(r.bridged, user, r.scaled, r.hops, replies, first, t);
  }

  /** The states a successful round trip goes through. */
  datatype Trip = Trip(pulled: Chain, bridged: Chain, bridgeTotal: int128, hops: uint32, scaled: seq<SubRoute>,
                       returned: Chain, depth: uint32, paid: Chain)

  lemma RoundTripUnroll(c: Chain, auth: set<Address>, user: Address, base: Address, bridge: Address, amountIn: int128,
                        legOut: seq<SubRoute>, legBack: seq<SubRoute>, minOut: int128, replies: seq<Reply>,
                        c': Chain, out: int128) returns (r: Trip)
    requires RoundTrip(c, auth, user, base, bridge, amountIn, legOut, legBack, minOut, replies) == Ok((c', out))
    ensures amountIn == Sum(Amounts(legOut)) && out >= minOut >= amountIn > 0
    ensures legOut != [] && legBack != [] && ValidRoutes(legOut, base, bridge) && ValidRoutes(legBack, bridge, base)
    ensures Transfer(c, base, user, Aggregator, amountIn) == Ok(r.pulled)
    ensures SubRoutes(r.pulled, user, legOut, 0, replies, 0) == Ok((r.bridged, r.bridgeTotal, r.hops))
    ensures Rescale.ScaleSubRoutesToTotal(legBack, r.bridgeTotal) == Ok(r.scaled)
    ensures SubRoutes(r.bridged, user, r.scaled, r.hops, replies, HopsBefore(legOut, |legOut|)) == Ok((r.returned, out, r.depth))
    ensures Transfer(r.returned, base, Aggregator, user, out) == Ok(r.paid)
    ensures c' == Emit(r.paid, RoundTripDone(user, base, bridge, amountIn, out, r.depth, |legOut| > 1 || |legBack| > 1))
    ensures c'.allowances == r.paid.allowances && forall t, a :: Balance(c', t, a) == Balance(r.paid, t, a)
  {
    hide Balance, Transfer, Validate, ValidRoutes, SubRoutes, HopsBefore, Amounts, Sum, Rescale.ScaleSubRoutesToTotal;
    ValidateMeans(legOut, base, bridge);
    ValidateMeans(legBack, bridge, base);
    var pulled := Transfer(c, base, user, Aggregator, amountIn).value;
    var (bridged, bridgeTotal, hops) := SubRoutes(pulled, user, legOut, 0, replies, 0).value;
    var scaled := Rescale.ScaleSubRoutesToTotal(legBack, bridgeTotal).value;
    var (returned, _, depth) := SubRoutes(bridged, user, scaled, hops, replies, HopsBefore(legOut, |legOut|)).value;
    var paid := Transfer(returned, base, Aggregator, user, out).value;
    r := Trip(pulled, bridged, bridgeTotal, hops, scaled, returned, depth, paid);
    EmitKeepsBalances(paid, RoundTripDone(user, base, bridge, amountIn, out, depth, |legOut| > 1 || |legBack| > 1));
  }

  lemma SameStepsOutside(a: seq<SubRoute>, b: seq<SubRoute>, user: Address, h: Address)
    requires |a| == |b| && (forall k :: 0 <= k < |a| ==> a[k].steps == b[k].steps) && Outside(b, user, h)
    ensures Outside(a, user, h)
  {
    hide OutsidePath;
  }

  /** A round trip moves the difference of output and input to the user; no other holder outside its routes sees it. */
  lemma RoundTripMoves(c: Chain, auth: set<Address>, user: Address, base: Address, bridge: Address, amountIn: int128,
                       legOut: seq<SubRoute>, legBack: seq<SubRoute>, minOut: int128, replies: seq<Reply>,
                       c': Chain, out: int128, t: Address, a: Address)
    requires user != Aggregator && Outside(legOut, user, a) && Outside(legBack, user, a)
    requires RoundTrip(c, auth, user, base, bridge, amountIn, legOut, legBack, minOut, replies) == Ok((c', out))
    ensures Balance(c', t, a) == Balance(c, t, a) + When(a == user && t == base, out - amountIn)
  {
    hide RoundTrip, Balance, Transfer, ValidRoutes, SubRoutes, Outside, HopsBefore, Amounts, Sum, Rescale.ScaleSubRoutesToTotal;
    var r := RoundTripUnroll(c, auth, user, base, bridge, amountIn, legOut, legBack, minOut, replies, c', out);
    OutsideMeans(legOut, user, a);
    SubRoutesTouchVenuesOnly(r.pulled, user, legOut, 0, replies, 0, t, a);
    Rescale.ScaledRoutesAreExact(legBack, r.bridgeTotal);
    SameStepsOutside(r.scaled, legBack, user, a);
    SubRoutesTouchVenuesOnly(r.bridged, user, r.scaled, r.hops, replies, HopsBefore(legOut, |legOut|), t, a);
  }

  lemma RoundTripLeavesNothing(c: Chain, auth: set<Address>, user: Address, base: Address, bridge: Address, amountIn: int128,
                               legOut: seq<SubRoute>, legBack: seq<SubRoute>, minOut: int128, replies: seq<Reply>,
                               c': Chain, out: int128, t: Address)
    requires user != Aggregator
    requires HonestReplies(legOut, replies, 0) && HonestReplies(legBack, replies, HopsBefore(legOut, |legOut|))
    requires RoundTrip(c, auth, user, base, bridge, amountIn, legOut, legBack, minOut, replies) == Ok((c', out))
    ensures Balance(c', t, Aggregator) == Balance(c, t, Aggregator)
  {
    hide RoundTrip, Balance;
    RoundTripSettles(c, auth, user, base, bridge, amountIn, legOut, legBack, minOut, replies, c', out, t);
    HonestRoutesLeaveNothing(legOut, 0, replies, 0, t);
    HonestRoutesLeaveNothing(legBack, 0, replies, HopsBefore(legOut, |legOut|), t);
  }
}
