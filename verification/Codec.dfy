// Aggregator calls as Soroban arguments: the bot's encoder and the indexer's parser.

module Codec {
  import opened AggregatorModel
  import opened Base
  import opened LegEvents
  import opened Legs
  import opened Normalize
  import opened ScVal

  /** One hop as the bot holds it: `venue` is the router's name for the source, `dexType` the contract's. */
  datatype ArbStep = ArbStep(venue: string, dexType: string, pool: Address, tokenIn: Address, tokenOut: Address,
                             inIdx: uint32, outIdx: uint32)

  datatype LegQuote = LegQuote(orders: seq<SubOrder>, stepSets: seq<seq<ArbStep>>)

  datatype InvokeArgs = InvokeArgs(contract: Address, functionName: string, args: seq<ScVal>)

  // ----- The encoder -----

  /** The name of a source in contract terms; concentrated-liquidity Aquarius pools share the Aquarius entry. */
  function SourceToDexType(source: string): Result<string> {
    if source == "aquarius" || source == "aquarius_clmm" then Ok("aquarius")
    else if source == "soroswap" || source == "phoenix" || source == "sushi" || source == "comet" then Ok(source)
    else Err(Trap)
  }

  function DexOf(dexType: string): Option<DexType> {
    if dexType == "aquarius" then Some(Aquarius)
    else if dexType == "soroswap" then Some(SoroswapPair)
    else if dexType == "phoenix" then Some(Phoenix)
    else if dexType == "sushi" then Some(Sushi)
    else if dexType == "comet" then Some(CometDex)
    else None
  }

  function DexTypeScVal(dexType: string): Result<ScVal> {
    match DexOf(dexType)
    case Some(d) => Ok(DexValue(d))
    case None => Err(Trap)
  }

  /** A contract address argument; text that is not one is refused. */
  function ContractScVal(a: Address): Result<ScVal> {
    if a.Account? then Err(Trap) else Ok(ScAddress(a))
  }

  function StepMap(pool: ScVal, dexType: ScVal, inIdx: uint32, outIdx: uint32, tokenIn: ScVal, tokenOut: ScVal): ScVal {
    ScMap(Some([(ScSymbol("dex_id"), pool), (ScSymbol("dex_type"), dexType), (ScSymbol("in_idx"), ScU32(inIdx)),
                (ScSymbol("out_idx"), ScU32(outIdx)), (ScSymbol("token_in"), tokenIn), (ScSymbol("token_out"), tokenOut)]))
  }

  function StepScVal(step: ArbStep): Result<ScVal> {
    var pool :- ContractScVal(step.pool);
    var tokenIn :- ContractScVal(step.tokenIn);
    var tokenOut :- ContractScVal(step.tokenOut);
    var dexType :- DexTypeScVal(step.dexType);
    Ok(StepMap(pool, dexType, step.inIdx, step.outIdx, tokenIn, tokenOut))
  }

  /** A host vector holds at most 2^32 - 1 values. */
  function VecScVal(items: seq<ScVal>): Result<ScVal> {
    if |items| > U32_MAX then Err(Trap) else Ok(ScVec(Some(items)))
  }

  function StepScVals(steps: seq<ArbStep>): (r: Result<seq<ScVal>>)
    ensures r.Ok? ==> |r.value| == |steps|
  {
    if steps == [] then Ok([])
    else
      var head :- StepScVal(steps[0]);
      var tail :- StepScVals(steps[1..]);
      Ok([head] + tail)
  }

  function SubRouteScVal(order: SubOrder, steps: seq<ArbStep>): Result<ScVal> {
    var values :- StepScVals(steps);
    var vector :- VecScVal(values);
    Ok(RouteMap(WrapToI128(order.amountIn), vector))
  }

  function RouteMap(amountIn: int128, steps: ScVal): ScVal {
    ScMap(Some([(ScSymbol("amount_in"), EncodeI128(amountIn)), (ScSymbol("steps"), steps)]))
  }

  function SubRouteScVals(orders: seq<SubOrder>, stepSets: seq<seq<ArbStep>>): (r: Result<seq<ScVal>>)
    requires |orders| == |stepSets|
    ensures r.Ok? ==> |r.value| == |orders|
  {
    if orders == [] then Ok([])
    else
      var head :- SubRouteScVal(orders[0], stepSets[0]);
      var tail :- SubRouteScVals(orders[1..], stepSets[1..]);
      Ok([head] + tail)
  }

  function LegScVal(orders: seq<SubOrder>, stepSets: seq<seq<ArbStep>>): Result<ScVal> {
    if |orders| != |stepSets| then Err(Trap)
    else
      var values :- SubRouteScVals(orders, stepSets);
      VecScVal(values)
  }

  /** What `build_round_trip_swap_op` refuses before it looks at the routes. */
  function CheckCall(user: Address, aggregator: Address, base: Address, bridge: Address, amountIn: int128, legOut: LegQuote,
                     legBack: LegQuote, minOut: int128): bool
  {
    && amountIn > 0 && minOut >= amountIn && legOut.orders != [] && legBack.orders != []
    && user.Account? && !aggregator.Account? && !base.Account? && !bridge.Account?
  }

  /** The call with prepared routes. */
  function CallArgs(aggregator: Address, user: Address, base: Address, bridge: Address, amountIn: int128, out: LegQuote,
                    back: LegQuote, minOut: int128): Result<InvokeArgs>
  {
    if !CheckCall(user, aggregator, base, bridge, amountIn, out, back, minOut) then Err(Trap)
    else
      var outValue :- LegScVal(out.orders, out.stepSets);
      var backValue :- LegScVal(back.orders, back.stepSets);
      Ok(InvokeArgs(aggregator, "round_trip_swap",
                    [ScAddress(user), ScAddress(base), ScAddress(bridge), EncodeI128(amountIn), outValue, backValue, EncodeI128(minOut)]))
  }

  /** The amounts of prepared legs: the out parts normalized to the input amount, the back parts turned into weights. */
  ghost predicate Prepared(amountIn: uint128, legOut: seq<SubOrder>, legBack: seq<SubOrder>, out: seq<SubOrder>, back: seq<SubOrder>) {
    && OrderAmounts(out) == Normalized(OrderAmounts(legOut), amountIn)
    && |out| == |legOut| && |back| == |legBack|
    && (forall k :: 0 <= k < |out| ==> out[k].expectedOut == legOut[k].expectedOut)
    && (forall k :: 0 <= k < |back| ==> back[k] == legBack[k].(amountIn := BackWeight(legOut, legBack, k)))
  }

  /** `build_round_trip_swap_op`, its argument vector. */
  method BuildRoundTripSwapOp(aggregator: Address, user: Address, base: Address, bridge: Address, amountIn: int128,
                              legOut: LegQuote, legBack: LegQuote, minOut: int128)
    returns (r: Result<InvokeArgs>)
    requires amountIn > 0 ==> TotalsFit(OrderAmounts(legOut.orders), amountIn)
    ensures !CheckCall(user, aggregator, base, bridge, amountIn, legOut, legBack, minOut) ==> r.Err?
    ensures CheckCall(user, aggregator, base, bridge, amountIn, legOut, legBack, minOut) ==>
              exists out, back ::
                && Prepared(amountIn, legOut.orders, legBack.orders, out, back)
                && r == CallArgs(aggregator, user, base, bridge, amountIn, legOut.(orders := out), legBack.(orders := back), minOut)
  {
    if !CheckCall(user, aggregator, base, bridge, amountIn, legOut, legBack, minOut) {
      return Err(Trap);
    }
    var out, back := PrepareRoundTripRoutes(amountIn, legOut.orders, legBack.orders);
    r := CallArgs(aggregator, user, base, bridge, amountIn, legOut.(orders := out), legBack.(orders := back), minOut);
    assert Prepared(amountIn, legOut.orders, legBack.orders, out, back);
  }

  // ----- What the call says -----

  function StepOf(step: ArbStep): SwapStep
    requires DexOf(step.dexType).Some?
  {
    SwapStep(step.pool, DexOf(step.dexType).value, step.tokenIn, step.tokenOut, step.inIdx, step.outIdx)
  }

  predicate EncodableStep(step: ArbStep) {
    && DexOf(step.dexType).Some?
    && !step.pool.Account? && !step.tokenIn.Account? && !step.tokenOut.Account?
  }

  predicate EncodableSteps(steps: seq<ArbStep>) {
    forall j :: 0 <= j < |steps| ==> EncodableStep(steps[j])
  }

  predicate Encodable(stepSets: seq<seq<ArbStep>>) {
    forall i :: 0 <= i < |stepSets| ==> EncodableSteps(stepSets[i]) && |stepSets[i]| <= U32_MAX
  }

  /** The routes a prepared leg stands for; amounts beyond the signed range wrap. */
  function RoutesOf(orders: seq<SubOrder>, stepSets: seq<seq<ArbStep>>): (routes: seq<SubRoute>)
    requires |orders| == |stepSets| && Encodable(stepSets)
    ensures |routes| == |orders|
    ensures forall i :: 0 <= i < |routes| ==> routes[i] == SubRoute(WrapToI128(orders[i].amountIn), StepsOf(stepSets[i]))
  {
    seq(|orders|, i requires 0 <= i < |orders| => SubRoute(WrapToI128(orders[i].amountIn), StepsOf(stepSets[i])))
  }

  function StepsOf(steps: seq<ArbStep>): (s: seq<SwapStep>)
    requires EncodableSteps(steps)
    ensures |s| == |steps| && forall j :: 0 <= j < |s| ==> s[j] == StepOf(steps[j])
  {
    seq(|steps|, j requires 0 <= j < |steps| => StepOf(steps[j]))
  }

  // ----- The contract's argument types as host values -----

  function DexValue(d: DexType): ScVal {
    ScVec(Some([ScSymbol(DexName(d))]))
  }

  function StepValue(step: SwapStep): ScVal {
    StepMap(ScAddress(step.dexId), DexValue(step.dexType), step.inIdx, step.outIdx, ScAddress(step.tokenIn), ScAddress(step.tokenOut))
  }

  function StepValues(steps: seq<SwapStep>): (v: seq<ScVal>)
    ensures |v| == |steps| && forall j :: 0 <= j < |v| ==> v[j] == StepValue(steps[j])
  {
    seq(|steps|, j requires 0 <= j < |steps| => StepValue(steps[j]))
  }

  function RouteValue(route: SubRoute): ScVal {
    RouteMap(route.amountIn, ScVec(Some(StepValues(route.steps))))
  }

  function RouteValues(routes: seq<SubRoute>): (v: seq<ScVal>)
    ensures |v| == |routes| && forall i :: 0 <= i < |v| ==> v[i] == RouteValue(routes[i])
  {
    seq(|routes|, i requires 0 <= i < |routes| => RouteValue(routes[i]))
  }

  /** The arguments of a `swap` or `swap_restricted` call. */
  function SwapArgs(user: Address, tokenIn: Address, tokenOut: Address, routes: seq<SubRoute>, minOut: int128): seq<ScVal> {
    [ScAddress(user), ScAddress(tokenIn), ScAddress(tokenOut), ScVec(Some(RouteValues(routes))), EncodeI128(minOut)]
  }

  // ----- The parser -----

  /** The first entry with this symbol as key. */
  function GetField(fields: seq<(ScVal, ScVal)>, key: string): Option<ScVal> {
    if fields == [] then None
    else if fields[0].0 == ScSymbol(key) then Some(fields[0].1)
    else GetField(fields[1..], key)
  }

  /** The envelope parser takes amounts from 128-bit values only. */
  function WideOf(v: ScVal): Option<int128> {
    if v.ScI128? then Some(JoinWords(v.hi, v.lo)) else None
  }

  function WideField(fields: seq<(ScVal, ScVal)>, key: string): Option<int128> {
    var f := GetField(fields, key);
    if f.Some? then WideOf(f.value) else None
  }

  function ItemsOf(v: ScVal): Option<seq<ScVal>> {
    if v.ScVec? then v.items else None
  }

  function FieldsOf(v: ScVal): Option<seq<(ScVal, ScVal)>> {
    if v.ScMap? then v.fields else None
  }

  function StepsField(fields: seq<(ScVal, ScVal)>): Option<seq<ScVal>> {
    var f := GetField(fields, "steps");
    if f.Some? then ItemsOf(f.value) else None
  }

  function ParseDexType(v: ScVal): Result<string> {
    if v.ScSymbol? then Ok(SourceOfSymbol(v.symbol))
    else if v.ScVec? && v.items.Some? && v.items.value != [] && v.items.value[0].ScSymbol? then
      Ok(SourceOfSymbol(v.items.value[0].symbol))
    else Err(Trap)
  }

  function AddressField(fields: seq<(ScVal, ScVal)>, key: string): Result<Option<Address>> {
    match GetField(fields, key)
    case None => Ok(None)
    case Some(v) => SomeAddress(v)
  }

  function ParseStep(fields: seq<(ScVal, ScVal)>, index: uint32, amountIn: Option<int128>): Result<ParsedLeg> {
    var pool :- AddressField(fields, "dex_id");
    var source :- match GetField(fields, "dex_type") { case None => Ok("unknown") case Some(v) => ParseDexType(v) };
    var tokenIn :- AddressField(fields, "token_in");
    var tokenOut :- AddressField(fields, "token_out");
    Ok(ParsedLeg(index, source, pool, tokenIn, tokenOut, amountIn, None, false))
  }

  /** A hop number: the position is cut to 32 bits, the addition is overflow-checked. */
  function Hop(base: uint32, hop: nat): Result<uint32> {
    var index := base + hop % (U32_MAX + 1);
    if index > U32_MAX then Err(Trap) else Ok(index)
  }

  /** The leg of one step, or none when it is not a map. */
  function StepLegs(step: ScVal, base: uint32, hop: nat, amountIn: Option<int128>): Result<seq<ParsedLeg>> {
    match FieldsOf(step)
    case None => Ok([])
    case Some(fields) =>
      var index :- Hop(base, hop);
      var leg :- ParseStep(fields, index, amountIn);
      Ok([leg])
  }

  function StepsFrom(steps: seq<ScVal>, i: nat, base: uint32, amountIn: Option<int128>): Result<seq<ParsedLeg>>
    requires i <= |steps|
    decreases |steps| - i
  {
    if i == |steps| then Ok([])
    else
      var here :- StepLegs(steps[i], base, i, amountIn);
      var rest :- StepsFrom(steps, i + 1, base, amountIn);
      Ok(here + rest)
  }

  /** The steps of a round-trip sub-route; anything malformed counts as none. */
  function StepsIn(route: ScVal): seq<ScVal> {
    match FieldsOf(route)
    case None => []
    case Some(fields) => if StepsField(fields).Some? then StepsField(fields).value else []
  }

  function AmountIn(route: ScVal): Option<int128> {
    match FieldsOf(route)
    case None => None
    case Some(fields) => WideField(fields, "amount_in")
  }

  function RoutesFrom(routes: seq<ScVal>, i: nat, base: uint32): Result<seq<ParsedLeg>>
    requires i <= |routes|
    decreases |routes| - i
  {
    if i == |routes| then Ok([])
    else
      var here :- StepsFrom(StepsIn(routes[i]), 0, base, AmountIn(routes[i]));
      var rest :- RoutesFrom(routes, i + 1, base);
      Ok(here + rest)
  }

  /** The longest of the first i sub-routes. */
  function DepthOf(routes: seq<ScVal>, i: nat): uint32
    requires i <= |routes|
  {
    if i == 0 then 0
    else
      var n := |StepsIn(routes[i - 1])| % (U32_MAX + 1);
      if n > DepthOf(routes, i - 1) then n else DepthOf(routes, i - 1)
  }

  /** A leg argument that is not a vector is skipped. */
  function LegArg(arg: ScVal): seq<ScVal> {
    OrElse(ItemsOf(arg), [])
  }

  function ParseRoundTrip(args: seq<ScVal>, amountOut: Option<int128>): Result<Invocation> {
    if |args| < 7 then Err(Trap)
    else
      var user :- ToAddress(args[0]);
      var base :- ToAddress(args[1]);
      var bridge :- ToAddress(args[2]);
      var out, back := LegArg(args[4]), LegArg(args[5]);
      var there :- RoutesFrom(out, 0, 0);
      var again :- RoutesFrom(back, 0, DepthOf(out, |out|));
      Ok(Invocation("round_trip_swap", user, Some(base), Some(base), Some(bridge), OrElse(WideOf(args[3]), 0), amountOut,
                    |out| > 1 || |back| > 1, there + again))
  }

  /** The result of a loop that has collected some legs and has the rest to come. */
  function After(legs: seq<ParsedLeg>, rest: Result<seq<ParsedLeg>>): Result<seq<ParsedLeg>> {
    if rest.Ok? then Ok(legs + rest.value) else rest
  }

  lemma StepsUnroll(legs: seq<ParsedLeg>, steps: seq<ScVal>, i: nat, base: uint32, amountIn: Option<int128>)
    requires i < |steps|
    ensures var here := StepLegs(steps[i], base, i, amountIn);
            After(legs, StepsFrom(steps, i, base, amountIn))
            == if here.Ok? then After(legs + here.value, StepsFrom(steps, i + 1, base, amountIn)) else Err(here.error)
  {
    hide StepLegs;
    var here, rest := StepLegs(steps[i], base, i, amountIn), StepsFrom(steps, i + 1, base, amountIn);
    if here.Ok? && rest.Ok? {
      assert legs + (here.value + rest.value) == legs + here.value + rest.value;
    }
  }

  lemma RoutesUnroll(legs: seq<ParsedLeg>, routes: seq<ScVal>, i: nat, base: uint32)
    requires i < |routes|
    ensures var here := StepsFrom(StepsIn(routes[i]), 0, base, AmountIn(routes[i]));
            After(legs, RoutesFrom(routes, i, base))
            == if here.Ok? then After(legs + here.value, RoutesFrom(routes, i + 1, base)) else Err(here.error)
  {
    hide StepsFrom, StepsIn, AmountIn;
    var here, rest := StepsFrom(StepsIn(routes[i]), 0, base, AmountIn(routes[i])), RoutesFrom(routes, i + 1, base);
    if here.Ok? && rest.Ok? {
      assert legs + (here.value + rest.value) == legs + here.value + rest.value;
    }
  }

  method CollectSteps(legs: seq<ParsedLeg>, steps: seq<ScVal>, base: uint32, amountIn: Option<int128>) returns (r: Result<seq<ParsedLeg>>)
    ensures r == After(legs, StepsFrom(steps, 0, base, amountIn))
  {
    hide ParseStep, StepsFrom;
    var collected := legs;
    var hop := 0;
    while hop < |steps|
      invariant 0 <= hop <= |steps|
      invariant After(collected, StepsFrom(steps, hop, base, amountIn)) == After(legs, StepsFrom(steps, 0, base, amountIn))
    {
      StepsUnroll(collected, steps, hop, base, amountIn);
      var fields := FieldsOf(steps[hop]);
      if fields.Some? {
        var index :- Hop(base, hop);
        var leg :- ParseStep(fields.value, index, amountIn);
        collected := collected + [leg];
      } else {
        assert collected + [] == collected;
      }
      hop := hop + 1;
    }
    NoStepsLeft(collected, steps, base, amountIn);
    r := Ok(collected);
  }

  lemma NoStepsLeft(legs: seq<ParsedLeg>, steps: seq<ScVal>, base: uint32, amountIn: Option<int128>)
    ensures After(legs, StepsFrom(steps, |steps|, base, amountIn)) == Ok(legs)
  {
    assert legs + [] == legs;
  }

  lemma NoRoutesLeft(legs: seq<ParsedLeg>, routes: seq<ScVal>, base: uint32)
    ensures After(legs, RoutesFrom(routes, |routes|, base)) == Ok(legs)
  {
    assert legs + [] == legs;
  }

  lemma NoSteps(legs: seq<ParsedLeg>, base: uint32, amountIn: Option<int128>)
    ensures StepsFrom([], 0, base, amountIn) == Ok([]) && legs + [] == legs
  {
  }

  lemma RouteParts(route: ScVal)
    ensures var fields := FieldsOf(route);
            && (fields.None? || StepsField(fields.value).None? ==> StepsIn(route) == [])
            && (fields.Some? ==> AmountIn(route) == WideField(fields.value, "amount_in"))
            && (fields.Some? && StepsField(fields.value).Some? ==> StepsIn(route) == StepsField(fields.value).value)
  {
  }

  /** The loop over the sub-routes of one leg argument: their legs, and the longest path among them. */
  method CollectRoutes(legs: seq<ParsedLeg>, routes: seq<ScVal>, base: uint32) returns (r: Result<seq<ParsedLeg>>, maxDepth: uint32)
    ensures r == After(legs, RoutesFrom(routes, 0, base))
    ensures r.Ok? ==> maxDepth == DepthOf(routes, |routes|)
  {
    hide StepsFrom, RoutesFrom, StepsField, WideField, StepsIn, AmountIn, FieldsOf;
    var collected := legs;
    maxDepth := 0;
    var i := 0;
    while i < |routes|
      invariant 0 <= i <= |routes| && maxDepth == DepthOf(routes, i)
      invariant After(collected, RoutesFrom(routes, i, base)) == After(legs, RoutesFrom(routes, 0, base))
    {
      RoutesUnroll(collected, routes, i, base);
      NoSteps(collected, base, AmountIn(routes[i]));
      RouteParts(routes[i]);
      var fields := FieldsOf(routes[i]);
      var steps := if fields.Some? then StepsField(fields.value) else None;
      if steps.Some? {
        var amountIn := WideField(fields.value, "amount_in");
        var more := CollectSteps(collected, steps.value, base, amountIn);
        if more.Err? {
          return more, maxDepth;
        }
        collected := more.value;
        var n := |steps.value| % (U32_MAX + 1);
        if n > maxDepth {
          maxDepth := n;
        }
      }
      i := i + 1;
    }
    NoRoutesLeft(collected, routes, base);
    r := Ok(collected);
  }

  /** `parse_round_trip_swap`: the loop over both leg arguments, with the hop base carried from the first to the second. */
  method ParseRoundTripSwap(args: seq<ScVal>, amountOut: Option<int128>) returns (r: Result<Invocation>)
    ensures r == ParseRoundTrip(args, amountOut)
  {
    hide RoutesFrom, DepthOf;
    if |args| < 7 {
      return Err(Trap);
    }
    var user :- ToAddress(args[0]);
    var base :- ToAddress(args[1]);
    var bridge :- ToAddress(args[2]);
    var amountIn := OrElse(WideOf(args[3]), 0);
    ghost var out, back := LegArg(args[4]), LegArg(args[5]);
    var legs: seq<ParsedLeg>, pathBase: uint32, isSplit := [], 0, false;
    NothingCollected(out, back);
    for k := 4 to 6
      invariant k == 4 ==> legs == [] && pathBase == 0 && !isSplit
      invariant k == 5 ==> RoutesFrom(out, 0, 0) == Ok(legs) && pathBase == DepthOf(out, |out|) && (isSplit <==> |out| > 1)
      invariant k == 6 ==> After([], RoutesFrom(out, 0, 0)).Ok? && (isSplit <==> |out| > 1 || |back| > 1)
                           && After(RoutesFrom(out, 0, 0).value, RoutesFrom(back, 0, DepthOf(out, |out|))) == Ok(legs)
    {
      var subRoutes := ItemsOf(args[k]);
      if subRoutes.Some? {
        if |subRoutes.value| > 1 {
          isSplit := true;
        }
        var more, maxDepth := CollectRoutes(legs, subRoutes.value, pathBase);
        if more.Err? {
          return Err(more.error);
        }
        assert k == 4 ==> [] + RoutesFrom(out, 0, 0).value == RoutesFrom(out, 0, 0).value;
        legs := more.value;
        pathBase := SaturatingAdd32(pathBase, maxDepth);
      }
      assert legs + [] == legs;
    }
    r := Ok(Invocation("round_trip_swap", user, Some(base), Some(base), Some(bridge), amountIn, amountOut, isSplit, legs));
  }

  lemma NothingCollected(out: seq<ScVal>, back: seq<ScVal>)
    ensures out == [] ==> RoutesFrom(out, 0, 0) == Ok([]) && DepthOf(out, |out|) == 0
    ensures forall base :: back == [] ==> RoutesFrom(back, 0, base) == Ok([])
  {
  }

  // ----- Plain swaps -----

  function SaturatingAdd128(a: int128, b: int128): int128 {
    if a + b > I128_MAX then I128_MAX else if a + b < I128_MIN then I128_MIN else a + b
  }

  /** The sub-routes of a swap from route i on: unlike in a round trip, each must be a map. */
  function SwapRoutesFrom(routes: seq<ScVal>, i: nat): Result<seq<ParsedLeg>>
    requires i <= |routes|
    decreases |routes| - i
  {
    if i == |routes| then Ok([])
    else if FieldsOf(routes[i]).None? then Err(Trap)
    else
      var here :- StepsFrom(StepsIn(routes[i]), 0, 0, Some(OrElse(AmountIn(routes[i]), 0)));
      var rest :- SwapRoutesFrom(routes, i + 1);
      Ok(here + rest)
  }

  function TotalIn(routes: seq<ScVal>, i: nat): int128
    requires i <= |routes|
  {
    if i == 0 then 0 else SaturatingAdd128(TotalIn(routes, i - 1), OrElse(AmountIn(routes[i - 1]), 0))
  }

  function ParseSwapCall(args: seq<ScVal>, amountOut: Option<int128>): Result<Invocation> {
    if |args| < 5 then Err(Trap)
    else
      var user :- ToAddress(args[0]);
      var tokenIn :- ToAddress(args[1]);
      var tokenOut :- ToAddress(args[2]);
      if ItemsOf(args[3]).None? then Err(Trap)
      else
        var routes := ItemsOf(args[3]).value;
        var legs :- SwapRoutesFrom(routes, 0);
        Ok(Invocation("swap", user, Some(tokenIn), Some(tokenOut), None, TotalIn(routes, |routes|), amountOut, |routes| > 1, legs))
  }

  lemma SwapRoutesUnroll(legs: seq<ParsedLeg>, routes: seq<ScVal>, i: nat)
    requires i < |routes| && FieldsOf(routes[i]).Some?
    ensures var here := StepsFrom(StepsIn(routes[i]), 0, 0, Some(OrElse(AmountIn(routes[i]), 0)));
            After(legs, SwapRoutesFrom(routes, i))
            == if here.Ok? then After(legs + here.value, SwapRoutesFrom(routes, i + 1)) else Err(here.error)
  {
    hide StepsFrom, StepsIn, AmountIn;
    var here, rest := StepsFrom(StepsIn(routes[i]), 0, 0, Some(OrElse(AmountIn(routes[i]), 0))), SwapRoutesFrom(routes, i + 1);
    if here.Ok? && rest.Ok? {
      assert legs + (here.value + rest.value) == legs + here.value + rest.value;
    }
  }

  /** `parse_swap`. */
  method ParseSwap(args: seq<ScVal>, amountOut: Option<int128>) returns (r: Result<Invocation>)
    ensures r == ParseSwapCall(args, amountOut)
  {
    hide StepsFrom, WideField, StepsField;
    if |args| < 5 {
      return Err(Trap);
    }
    var user :- ToAddress(args[0]);
    var tokenIn :- ToAddress(args[1]);
    var tokenOut :- ToAddress(args[2]);
    var items := ItemsOf(args[3]);
    if items.None? {
      return Err(Trap);
    }
    var routes := items.value;
    var legs: seq<ParsedLeg>, amountIn: int128, i := [], 0, 0;
    assert SwapRoutesFrom(routes, 0).Ok? ==> [] + SwapRoutesFrom(routes, 0).value == SwapRoutesFrom(routes, 0).value;
    while i < |routes|
      invariant 0 <= i <= |routes| && amountIn == TotalIn(routes, i)
      invariant After(legs, SwapRoutesFrom(routes, i)) == SwapRoutesFrom(routes, 0)
    {
      var fields := FieldsOf(routes[i]);
      if fields.None? {
        return Err(Trap);
      }
      SwapRoutesUnroll(legs, routes, i);
      var routeAmount := OrElse(WideField(fields.value, "amount_in"), 0);
      amountIn := SaturatingAdd128(amountIn, routeAmount);
      var steps := StepsField(fields.value);
      if steps.Some? {
        legs :- CollectSteps(legs, steps.value, 0, Some(routeAmount));
      } else {
        NoStepsLeft([], [], 0, Some(routeAmount));
        assert legs + [] == legs;
      }
      i := i + 1;
    }
    assert legs + [] == legs;
    r := Ok(Invocation("swap", user, Some(tokenIn), Some(tokenOut), None, amountIn, amountOut, |routes| > 1, legs));
  }

  // ----- The round trip -----

  lemma AmountComesBack(a: int128)
    ensures WideOf(EncodeI128(a)) == Some(a)
  {
    I128RoundTrip(a, 0, 0);
  }

  /** A known venue keeps its name through the contract's symbol and back. */
  lemma DexNameComesBack(dexType: string)
    requires DexOf(dexType).Some?
    ensures SourceOfSymbol(DexName(DexOf(dexType).value)) == dexType
    ensures DexTypeScVal(dexType).Ok? && ParseDexType(DexTypeScVal(dexType).value) == Ok(dexType)
  {
  }

  /** Router sources keep their names in the index, except that concentrated-liquidity Aquarius pools merge into Aquarius. */
  lemma SourceUpToMerge(source: string)
    ensures SourceToDexType(source).Ok? ==>
              var t := SourceToDexType(source).value;
              && DexOf(t).Some? && t == if source == "aquarius_clmm" then "aquarius" else source
    ensures SourceToDexType(source).Ok? <==> source in {"aquarius", "aquarius_clmm", "soroswap", "phoenix", "sushi", "comet"}
  {
  }

  lemma StepComesBack(step: SwapStep, base: uint32, hop: uint32, amountIn: int128)
    requires base + hop <= U32_MAX
    ensures StepLegs(StepValue(step), base, hop, Some(amountIn)) == Ok([StepLeg(step, base + hop, amountIn)])
  {
    hide DexName, SourceOfSymbol;
    var v := StepValue(step).fields.value;
    FieldAt(v, 0, "dex_id");
    FieldAt(v, 1, "dex_type");
    FieldAt(v, 4, "token_in");
    FieldAt(v, 5, "token_out");
  }

  /** The first entry with a key is found. */
  lemma {:induction false} FieldAt(fields: seq<(ScVal, ScVal)>, i: nat, key: string)
    requires i < |fields| && fields[i].0 == ScSymbol(key) && forall j :: 0 <= j < i ==> fields[j].0 != ScSymbol(key)
    ensures GetField(fields, key) == Some(fields[i].1)
    decreases i
  {
    if i == 0 {
    } else {
      FieldAt(fields[1..], i - 1, key);
    }
  }

  /** The legs parsed from the steps from hop i on complete the path's first i legs. */
  lemma {:induction false} PathComesBack(route: SubRoute, i: nat, base: uint32)
    requires i <= |route.steps| && base + |route.steps| <= U32_MAX
    ensures var legs := PathLegs(route, base);
            After(legs[..i], StepsFrom(StepValues(route.steps), i, base, Some(route.amountIn))) == Ok(legs)
    decreases |route.steps| - i
  {
    hide StepValue, StepLegs, StepLeg, StepsFrom, After, PathLegs;
    var legs, values := PathLegs(route, base), StepValues(route.steps);
    if i == |route.steps| {
      assert legs[..i] == legs;
      NoStepsLeft(legs, values, base, Some(route.amountIn));
    } else {
      StepsUnroll(legs[..i], values, i, base, Some(route.amountIn));
      StepComesBack(route.steps[i], base, i, route.amountIn);
      assert legs[..i] + [legs[i]] == legs[..i + 1];
      PathComesBack(route, i + 1, base);
    }
  }

  /** All legs of a path, parsed from its first step on. */
  lemma WholePathComesBack(route: SubRoute, base: uint32)
    requires base + |route.steps| <= U32_MAX
    ensures StepsFrom(StepValues(route.steps), 0, base, Some(route.amountIn)) == Ok(PathLegs(route, base))
  {
    hide StepsFrom, PathLegs, StepValues;
    PathComesBack(route, 0, base);
    var rest := StepsFrom(StepValues(route.steps), 0, base, Some(route.amountIn));
    assert rest.Ok? ==> [] + rest.value == rest.value;
  }

  lemma RouteReadsBack(route: SubRoute)
    ensures FieldsOf(RouteValue(route)).Some?
    ensures StepsIn(RouteValue(route)) == StepValues(route.steps)
    ensures AmountIn(RouteValue(route)) == Some(route.amountIn)
  {
    hide EncodeI128, WideOf, GetField, StepValues;
    AmountComesBack(route.amountIn);
    var fields := RouteValue(route).fields.value;
    FieldAt(fields, 0, "amount_in");
    FieldAt(fields, 1, "steps");
  }

  /** The legs parsed from the sub-routes from i on complete the legs of the first i. */
  lemma {:induction false} RoutesComeBack(routes: seq<SubRoute>, i: nat, base: uint32)
    requires i <= |routes| && Fits(routes, base)
    ensures After(RouteLegs(routes, i, base), RoutesFrom(RouteValues(routes), i, base)) == Ok(RouteLegs(routes, |routes|, base))
    decreases |routes| - i
  {
    hide RouteValue, StepValues, StepsFrom, RouteLegs, PathLegs, StepsIn, AmountIn, RoutesFrom;
    var values := RouteValues(routes);
    if i == |routes| {
      NoRoutesLeft(RouteLegs(routes, i, base), values, base);
    } else {
      RoutesUnroll(RouteLegs(routes, i, base), values, i, base);
      RouteReadsBack(routes[i]);
      WholePathComesBack(routes[i], base);
      RouteLegsNext(routes, i, base);
      RoutesComeBack(routes, i + 1, base);
    }
  }

  lemma RouteLegsNext(routes: seq<SubRoute>, i: nat, base: uint32)
    requires i < |routes| && Fits(routes, base)
    ensures RouteLegs(routes, i + 1, base) == RouteLegs(routes, i, base) + PathLegs(routes[i], base)
    ensures RouteLegs(routes, 0, base) == []
  {
  }

  lemma NoLegsYet(routes: seq<SubRoute>, base: uint32)
    requires Fits(routes, base)
    ensures RouteLegs(routes, 0, base) == []
  {
  }

  /** All legs of a list of routes, parsed from its first on. */
  lemma AllRoutesComeBack(routes: seq<SubRoute>, base: uint32)
    requires Fits(routes, base)
    ensures RoutesFrom(RouteValues(routes), 0, base) == Ok(RouteLegs(routes, |routes|, base))
  {
    hide RouteValues, RoutesFrom, RouteLegs, Fits;
    RoutesComeBack(routes, 0, base);
    NoLegsYet(routes, base);
    var rest := RoutesFrom(RouteValues(routes), 0, base);
    assert rest.Ok? ==> [] + rest.value == rest.value;
  }

  lemma {:induction false} DepthComesBack(routes: seq<SubRoute>, i: nat)
    requires i <= |routes| && ShortPaths(routes)
    ensures DepthOf(RouteValues(routes), i) == Depth(routes, i)
  {
    hide RouteValue, StepsIn;
    if i == 0 {
    } else {
      RouteReadsBack(routes[i - 1]);
      DepthComesBack(routes, i - 1);
    }
  }

  // ----- Venue names -----

  /** The sources of the legs, in order. */
  function Sources(legs: seq<ParsedLeg>): (s: seq<string>)
    ensures |s| == |legs| && forall i :: 0 <= i < |s| ==> s[i] == legs[i].source
  {
    seq(|legs|, i requires 0 <= i < |legs| => legs[i].source)
  }

  function DexTypes(steps: seq<ArbStep>): (s: seq<string>)
    ensures |s| == |steps| && forall j :: 0 <= j < |s| ==> s[j] == steps[j].dexType
  {
    seq(|steps|, j requires 0 <= j < |steps| => steps[j].dexType)
  }

  /** The venue names of the first i step sets, in order. */
  function AllDexTypes(stepSets: seq<seq<ArbStep>>, i: nat): seq<string>
    requires i <= |stepSets|
  {
    if i == 0 then [] else AllDexTypes(stepSets, i - 1) + DexTypes(stepSets[i - 1])
  }

  lemma PathSources(amountIn: int128, steps: seq<ArbStep>, base: uint32)
    requires EncodableSteps(steps) && base + |steps| <= U32_MAX
    ensures Sources(PathLegs(SubRoute(amountIn, StepsOf(steps)), base)) == DexTypes(steps)
  {
    hide DexOf, DexName, SourceOfSymbol;
    forall j | 0 <= j < |steps|
      ensures PathLegs(SubRoute(amountIn, StepsOf(steps)), base)[j].source == steps[j].dexType
    {
      assert EncodableStep(steps[j]);
      DexNameComesBack(steps[j].dexType);
    }
  }

  /** The legs of encoded routes are of the venues the steps name. */
  lemma {:induction false} RouteSources(orders: seq<SubOrder>, stepSets: seq<seq<ArbStep>>, i: nat, base: uint32)
    requires |orders| == |stepSets| && i <= |orders| && Encodable(stepSets) && Fits(RoutesOf(orders, stepSets), base)
    ensures Sources(RouteLegs(RoutesOf(orders, stepSets), i, base)) == AllDexTypes(stepSets, i)
  {
    hide PathLegs, StepsOf, EncodableSteps, Sources, DexTypes, RouteLegs, WrapToI128, RoutesOf;
    var routes := RoutesOf(orders, stepSets);
    if i == 0 {
      NoLegsYet(routes, base);
    } else {
      var k := i - 1;
      assert routes[k] == SubRoute(WrapToI128(orders[k].amountIn), StepsOf(stepSets[k]));
      RouteSources(orders, stepSets, k, base);
      RouteLegsNext(routes, k, base);
      SourcesConcat(RouteLegs(routes, k, base), PathLegs(routes[k], base));
      PathSources(WrapToI128(orders[k].amountIn), stepSets[k], base);
    }
  }

  lemma SourcesConcat(a: seq<ParsedLeg>, b: seq<ParsedLeg>)
    ensures Sources(a + b) == Sources(a) + Sources(b)
  {
  }

  // ----- Swaps -----

  lemma {:induction false} SwapRoutesComeBack(routes: seq<SubRoute>, i: nat)
    requires i <= |routes| && Fits(routes, 0)
    ensures After(RouteLegs(routes, i, 0), SwapRoutesFrom(RouteValues(routes), i)) == Ok(RouteLegs(routes, |routes|, 0))
    decreases |routes| - i
  {
    hide RouteValue, StepValues, StepsFrom, RouteLegs, PathLegs, StepsIn, AmountIn, FieldsOf, SwapRoutesFrom;
    var values := RouteValues(routes);
    if i == |routes| {
      NoSwapRoutesLeft(RouteLegs(routes, i, 0), values);
    } else {
      RouteReadsBack(routes[i]);
      SwapRoutesUnroll(RouteLegs(routes, i, 0), values, i);
      WholePathComesBack(routes[i], 0);
      RouteLegsNext(routes, i, 0);
      SwapRoutesComeBack(routes, i + 1);
    }
  }

  lemma NoSwapRoutesLeft(legs: seq<ParsedLeg>, routes: seq<ScVal>)
    ensures After(legs, SwapRoutesFrom(routes, |routes|)) == Ok(legs)
  {
    assert legs + [] == legs;
  }

  /** The parser's saturating total is the exact one for amounts a contract accepts. */
  lemma {:induction false} TotalComesBack(routes: seq<SubRoute>, i: nat)
    requires i <= |routes| && Sum(Amounts(routes)) <= I128_MAX
    requires forall k :: 0 <= k < |routes| ==> routes[k].amountIn > 0
    ensures TotalIn(RouteValues(routes), i) == Sum(Amounts(routes)[..i])
  {
    hide RouteValue, RouteValues, AmountIn, Amounts;
    if i == 0 {
      assert Amounts(routes)[..0] == [];
    } else {
      hide Sum;
      TotalComesBack(routes, i - 1);
      RouteReadsBack(routes[i - 1]);
      PartialSum(Amounts(routes), i);
    }
  }

  /** Swap arguments parse to the caller, the tokens, the exact total and every step of every route, in order. */
  lemma {:induction false} SwapCallComesBack(user: Address, tokenIn: Address, tokenOut: Address, routes: seq<SubRoute>, minOut: int128,
                          amountOut: Option<int128>)
    requires Fits(routes, 0) && 0 <= Sum(Amounts(routes)) <= I128_MAX && forall k :: 0 <= k < |routes| ==> routes[k].amountIn > 0
    ensures ParseSwapCall(SwapArgs(user, tokenIn, tokenOut, routes, minOut), amountOut)
            == Ok(Invocation("swap", user, Some(tokenIn), Some(tokenOut), None, Sum(Amounts(routes)), amountOut, |routes| > 1,
                             RouteLegs(routes, |routes|, 0)))
  {
    hide RouteLegs, SwapRoutesFrom, TotalIn, EncodeI128, Amounts, Sum, Fits, RouteValue;
    SwapRoutesComeBack(routes, 0);
    NoLegsYet(routes, 0);
    TotalComesBack(routes, |routes|);
    assert Amounts(routes)[..|routes|] == Amounts(routes);
    var rest := SwapRoutesFrom(RouteValues(routes), 0);
    assert rest.Ok? ==> [] + rest.value == rest.value;
  }

  // ----- The bot's encoder -----

  /** The encoder accepts exactly the steps whose venue is known and whose pool and tokens are contracts. */
  lemma StepEncodesExactly(step: ArbStep)
    ensures StepScVal(step).Ok? <==> EncodableStep(step)
    ensures StepScVal(step).Ok? ==> StepScVal(step).value == StepValue(StepOf(step))
  {
    hide DexOf, DexName;
  }

  lemma {:induction false} StepsEncodeExactly(steps: seq<ArbStep>)
    ensures StepScVals(steps).Ok? <==> EncodableSteps(steps)
    ensures StepScVals(steps).Ok? ==> StepScVals(steps).value == StepValues(StepsOf(steps))
  {
    hide StepScVal, EncodableStep, StepOf, StepValue;
    if steps == [] {
    } else {
      StepEncodesExactly(steps[0]);
      StepsEncodeExactly(steps[1..]);
      assert forall j :: 0 < j < |steps| ==> steps[j] == steps[1..][j - 1];
    }
  }

  lemma SubRouteEncodesExactly(order: SubOrder, steps: seq<ArbStep>)
    ensures SubRouteScVal(order, steps).Ok? <==> EncodableSteps(steps) && |steps| <= U32_MAX
    ensures SubRouteScVal(order, steps).Ok? ==>
              SubRouteScVal(order, steps).value == RouteValue(SubRoute(WrapToI128(order.amountIn), StepsOf(steps)))
  {
    hide StepScVals, EncodableSteps, RouteMap, WrapToI128, StepsOf, StepValues;
    StepsEncodeExactly(steps);
  }

  lemma {:induction false} RoutesEncodeExactly(orders: seq<SubOrder>, stepSets: seq<seq<ArbStep>>)
    requires |orders| == |stepSets|
    ensures SubRouteScVals(orders, stepSets).Ok? <==> Encodable(stepSets)
    ensures SubRouteScVals(orders, stepSets).Ok? ==>
              SubRouteScVals(orders, stepSets).value == RouteValues(RoutesOf(orders, stepSets))
  {
    hide SubRouteScVal, EncodableSteps, RouteValue, WrapToI128, StepsOf;
    if orders == [] {
    } else {
      SubRouteEncodesExactly(orders[0], stepSets[0]);
      RoutesEncodeExactly(orders[1..], stepSets[1..]);
      assert forall i :: 0 < i < |orders| ==> stepSets[i] == stepSets[1..][i - 1] && orders[i] == orders[1..][i - 1];
    }
  }

  predicate EncodableLeg(leg: LegQuote) {
    |leg.orders| == |leg.stepSets| <= U32_MAX && Encodable(leg.stepSets)
  }

  /** The calls the encoder accepts, exactly. */
  lemma CallEncodesExactly(aggregator: Address, user: Address, base: Address, bridge: Address, amountIn: int128, out: LegQuote,
                           back: LegQuote, minOut: int128)
    ensures CallArgs(aggregator, user, base, bridge, amountIn, out, back, minOut).Ok?
            <==> && 0 < amountIn <= minOut && out.orders != [] && back.orders != []
                 && user.Account? && !aggregator.Account? && !base.Account? && !bridge.Account?
                 && EncodableLeg(out) && EncodableLeg(back)
    ensures var r := CallArgs(aggregator, user, base, bridge, amountIn, out, back, minOut);
            r.Ok? ==>
              && r.value.contract == aggregator && r.value.functionName == "round_trip_swap" && |r.value.args| == 7
              && r.value.args[..3] == [ScAddress(user), ScAddress(base), ScAddress(bridge)]
              && r.value.args[3] == EncodeI128(amountIn) && r.value.args[6] == EncodeI128(minOut)
  {
    hide LegScVal, EncodableLeg, EncodeI128;
    LegEncodesExactly(out);
    LegEncodesExactly(back);
  }

  lemma LegEncodesExactly(leg: LegQuote)
    ensures LegScVal(leg.orders, leg.stepSets).Ok? <==> EncodableLeg(leg)
  {
    hide SubRouteScVals, Encodable;
    if |leg.orders| == |leg.stepSets| {
      RoutesEncodeExactly(leg.orders, leg.stepSets);
    }
  }

  lemma LegComesBack(leg: LegQuote, base: uint32)
    requires LegScVal(leg.orders, leg.stepSets).Ok?
    ensures EncodableLeg(leg)
    ensures var arg, routes := LegArg(LegScVal(leg.orders, leg.stepSets).value), RoutesOf(leg.orders, leg.stepSets);
            && |arg| == |leg.orders| && DepthOf(arg, |arg|) == Depth(routes, |routes|)
            && (Fits(routes, base) ==> RoutesFrom(arg, 0, base) == Ok(RouteLegs(routes, |routes|, base)))
  {
    hide SubRouteScVals, DepthOf, Depth, RoutesFrom, RouteLegs, Fits, RouteValue, EncodableSteps;
    RoutesEncodeExactly(leg.orders, leg.stepSets);
    var routes := RoutesOf(leg.orders, leg.stepSets);
    DepthComesBack(routes, |routes|);
    if Fits(routes, base) {
      AllRoutesComeBack(routes, base);
    }
  }

  /** What a parsed round trip says about the call it was encoded from. */
  ghost predicate SaysBack(p: Invocation, user: Address, base: Address, bridge: Address, amountIn: int128, out: LegQuote, back: LegQuote,
                           amountOut: Option<int128>)
    requires EncodableLeg(out) && EncodableLeg(back)
    requires Fits(RoutesOf(out.orders, out.stepSets), 0)
    requires var routes := RoutesOf(out.orders, out.stepSets);
             Fits(RoutesOf(back.orders, back.stepSets), Depth(routes, |routes|))
  {
    && p == Invocation("round_trip_swap", user, Some(base), Some(base), Some(bridge), amountIn, amountOut,
                    |out.orders| > 1 || |back.orders| > 1,
                    RoundTripLegs(RoutesOf(out.orders, out.stepSets), RoutesOf(back.orders, back.stepSets)))
    && Sources(p.legs) == AllDexTypes(out.stepSets, |out.stepSets|) + AllDexTypes(back.stepSets, |back.stepSets|)
  }

  /** The codec round trip: whatever call the bot encodes, the indexer reads back its user, tokens and amount and every hop
      of both legs, in order, numbered serially and under the bot's own venue names. */
  lemma CallComesBack(aggregator: Address, user: Address, base: Address, bridge: Address, amountIn: int128, out: LegQuote,
                      back: LegQuote, minOut: int128, amountOut: Option<int128>, call: InvokeArgs)
    requires CallArgs(aggregator, user, base, bridge, amountIn, out, back, minOut) == Ok(call)
    ensures EncodableLeg(out) && EncodableLeg(back)
    ensures var routes := RoutesOf(out.orders, out.stepSets);
            Fits(routes, 0) && Fits(RoutesOf(back.orders, back.stepSets), Depth(routes, |routes|)) ==>
              && ParseRoundTrip(call.args, amountOut).Ok?
              && SaysBack(ParseRoundTrip(call.args, amountOut).value, user, base, bridge, amountIn, out, back, amountOut)
  {
    hide LegScVal, LegArg, RoutesOf, DepthOf, Depth, RoutesFrom, RouteLegs, EncodeI128, WideOf, Encodable, Fits, Sources, AllDexTypes;
    LegComesBack(out, 0);
    var routes := RoutesOf(out.orders, out.stepSets);
    LegComesBack(back, Depth(routes, |routes|));
    AmountComesBack(amountIn);
    if Fits(routes, 0) && Fits(RoutesOf(back.orders, back.stepSets), Depth(routes, |routes|)) {
      RouteSources(out.orders, out.stepSets, |out.orders|, 0);
      RouteSources(back.orders, back.stepSets, |back.orders|, Depth(routes, |routes|));
      SourcesConcat(RouteLegs(routes, |routes|, 0),
                    RouteLegs(RoutesOf(back.orders, back.stepSets), |back.orders|, Depth(routes, |routes|)));
    }
  }

  // ----- Finding the call in a transaction -----

  /** A node of an authorization tree; the function may be something other than a contract call. */
  datatype Authorized = Authorized(call: Option<InvokeArgs>, subs: seq<Authorized>)

  /** `try_parse_aggregator_invoke`. */
  function TryParse(call: InvokeArgs, aggregator: Address, amountOut: Option<int128>): Result<Option<Invocation>> {
    if call.contract.Account? || call.contract != aggregator then Ok(None)
    else if call.functionName == "swap" then Found(ParseSwapCall(call.args, amountOut))
    else if call.functionName == "round_trip_swap" then Found(ParseRoundTrip(call.args, amountOut))
    else Ok(None)
  }

  function Found(r: Result<Invocation>): Result<Option<Invocation>> {
    var p :- r;
    Ok(Some(p))
  }

  /** `find_aggregator_in_auth`: the node itself, then its children in turn; the first hit or error ends the search. */
  function FindInAuth(node: Authorized, aggregator: Address, amountOut: Option<int128>): Result<Option<Invocation>>
    decreases node, 0
  {
    var own :- if node.call.Some? then TryParse(node.call.value, aggregator, amountOut) else Ok(None);
    if own.Some? then Ok(own) else FindInForest(node.subs, aggregator, amountOut)
  }

  function FindInForest(nodes: seq<Authorized>, aggregator: Address, amountOut: Option<int128>): Result<Option<Invocation>>
    decreases nodes, 1
  {
    if nodes == [] then Ok(None)
    else
      var first :- FindInAuth(nodes[0], aggregator, amountOut);
      if first.Some? then Ok(first) else FindInForest(nodes[1..], aggregator, amountOut)
  }

  /** The contract calls of a tree in preorder. */
  function Calls(node: Authorized): seq<InvokeArgs>
    decreases node, 0
  {
    (if node.call.Some? then [node.call.value] else []) + ForestCalls(node.subs)
  }

  function ForestCalls(nodes: seq<Authorized>): seq<InvokeArgs>
    decreases nodes, 1
  {
    if nodes == [] then [] else Calls(nodes[0]) + ForestCalls(nodes[1..])
  }

  /** The first call of a list that is the aggregator's or that fails to parse. */
  function FirstHit(calls: seq<InvokeArgs>, aggregator: Address, amountOut: Option<int128>): Result<Option<Invocation>> {
    if calls == [] then Ok(None)
    else
      var r := TryParse(calls[0], aggregator, amountOut);
      if r == Ok(None) then FirstHit(calls[1..], aggregator, amountOut) else r
  }

  lemma {:induction false} FirstHitAppend(a: seq<InvokeArgs>, b: seq<InvokeArgs>, aggregator: Address, amountOut: Option<int128>)
    ensures FirstHit(a + b, aggregator, amountOut)
            == if FirstHit(a, aggregator, amountOut) == Ok(None) then FirstHit(b, aggregator, amountOut)
               else FirstHit(a, aggregator, amountOut)
  {
    hide TryParse;
    if a == [] {
      assert a + b == b;
    } else {
      FirstHitAppend(a[1..], b, aggregator, amountOut);
      assert (a + b)[1..] == a[1..] + b && (a + b)[0] == a[0];
    }
  }

  /** The search of an authorization tree is a linear search of its calls in preorder. */
  lemma {:induction false} FindIsFirstHit(node: Authorized, aggregator: Address, amountOut: Option<int128>)
    ensures FindInAuth(node, aggregator, amountOut) == FirstHit(Calls(node), aggregator, amountOut)
    decreases node, 0
  {
    hide TryParse;
    ForestIsFirstHit(node.subs, aggregator, amountOut);
    if node.call.Some? {
      FirstHitAppend([node.call.value], ForestCalls(node.subs), aggregator, amountOut);
      assert [node.call.value][1..] == [];
    } else {
      assert [] + ForestCalls(node.subs) == ForestCalls(node.subs);
    }
  }

  lemma {:induction false} ForestIsFirstHit(nodes: seq<Authorized>, aggregator: Address, amountOut: Option<int128>)
    ensures FindInForest(nodes, aggregator, amountOut) == FirstHit(ForestCalls(nodes), aggregator, amountOut)
    decreases nodes, 1
  {
    hide TryParse;
    if nodes == [] {
    } else {
      FindIsFirstHit(nodes[0], aggregator, amountOut);
      ForestIsFirstHit(nodes[1..], aggregator, amountOut);
      FirstHitAppend(Calls(nodes[0]), ForestCalls(nodes[1..]), aggregator, amountOut);
    }
  }

  /** A contract call of a transaction and the authorization trees that come with it. */
  datatype Operation = Operation(call: Option<InvokeArgs>, auth: seq<Authorized>)

  /** `parse_envelope`, once the envelope is decoded: each operation's own call, then its authorization trees. */
  function ParseEnvelope(ops: seq<Operation>, aggregator: Address, amountOut: Option<int128>): Result<Option<Invocation>> {
    if ops == [] then Ok(None)
    else
      var own :- if ops[0].call.Some? then TryParse(ops[0].call.value, aggregator, amountOut) else Ok(None);
      if own.Some? then Ok(own)
      else
        var nested :- FindInForest(ops[0].auth, aggregator, amountOut);
        if nested.Some? then Ok(nested) else ParseEnvelope(ops[1..], aggregator, amountOut)
  }

  function OperationCalls(ops: seq<Operation>): seq<InvokeArgs> {
    if ops == [] then []
    else Calls(Authorized(ops[0].call, ops[0].auth)) + OperationCalls(ops[1..])
  }

  lemma {:induction false} EnvelopeIsFirstHit(ops: seq<Operation>, aggregator: Address, amountOut: Option<int128>)
    ensures ParseEnvelope(ops, aggregator, amountOut) == FirstHit(OperationCalls(ops), aggregator, amountOut)
  {
    hide TryParse, FindInForest, Calls, FirstHit;
    if ops == [] {
      NoCalls(aggregator, amountOut);
    } else {
      var node := Authorized(ops[0].call, ops[0].auth);
      FindIsFirstHit(node, aggregator, amountOut);
      EnvelopeIsFirstHit(ops[1..], aggregator, amountOut);
      FirstHitAppend(Calls(node), OperationCalls(ops[1..]), aggregator, amountOut);
    }
  }

  lemma NoCalls(aggregator: Address, amountOut: Option<int128>)
    ensures FirstHit([], aggregator, amountOut) == Ok(None)
  {
  }

  /** Calls of other contracts, and of functions with other names, are passed over. */
  lemma {:induction false} OthersArePassed(calls: seq<InvokeArgs>, aggregator: Address, amountOut: Option<int128>)
    requires forall i :: 0 <= i < |calls| ==>
               calls[i].contract != aggregator || (calls[i].functionName != "swap" && calls[i].functionName != "round_trip_swap")
    ensures FirstHit(calls, aggregator, amountOut) == Ok(None)
  {
    if calls != [] {
      OthersArePassed(calls[1..], aggregator, amountOut);
    }
  }

  /** Where nothing before it is an aggregator call, the first swap or round trip is what the search returns, parsed: the
      vault's own call, for instance, does not hide the round trip it authorizes. */
  lemma {:induction false} FirstCallIsFound(before: seq<InvokeArgs>, call: InvokeArgs, after: seq<InvokeArgs>, aggregator: Address,
                                            amountOut: Option<int128>)
    requires forall i :: 0 <= i < |before| ==> before[i].contract != aggregator
    requires call.contract == aggregator && !aggregator.Account?
    requires call.functionName == "swap" || call.functionName == "round_trip_swap"
    ensures FirstHit(before + [call] + after, aggregator, amountOut)
            == Found(if call.functionName == "swap" then ParseSwapCall(call.args, amountOut) else ParseRoundTrip(call.args, amountOut))
    decreases |before|
  {
    hide ParseRoundTrip, ParseSwapCall;
    if before == [] {
      assert ([] + [call] + after)[0] == call;
    } else {
      FirstCallIsFound(before[1..], call, after, aggregator, amountOut);
      assert (before + [call] + after)[1..] == before[1..] + [call] + after;
    }
  }
}
