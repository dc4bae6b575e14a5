// Leg rows from two sources: what the aggregator emits, and what the arguments of the same call say.

module Legs {
  import opened AggregatorModel
  import opened Base
  import opened Ledger
  import Decimal
  import Rescale
  import Settlement

  /** A leg row. The pool is missing (empty text) only when the arguments do not name one. */
  datatype ParsedLeg = ParsedLeg(index: uint32, source: string, pool: Option<Address>, tokenIn: Option<Address>, tokenOut: Option<Address>,
                                 amountIn: Option<int128>, amountOut: Option<int128>, actual: bool)

  datatype Invocation = Invocation(functionName: string, user: Address, tokenIn: Option<Address>, tokenOut: Option<Address>,
                                   bridge: Option<Address>, amountIn: int128, amountOut: Option<int128>, isSplit: bool,
                                   legs: seq<ParsedLeg>)

  /** What identifies a leg in both sources: hop, venue and pool. */
  type LegKey = (uint32, string, Option<Address>)

  function Key(l: ParsedLeg): LegKey {
    (l.index, l.source, l.pool)
  }

  function Keys(legs: seq<ParsedLeg>): (k: seq<LegKey>)
    ensures |k| == |legs| && forall i :: 0 <= i < |legs| ==> k[i] == Key(legs[i])
  {
    seq(|legs|, i requires 0 <= i < |legs| => Key(legs[i]))
  }

  /** The symbol of a venue type in the arguments of a call. */
  function DexName(d: DexType): string {
    match d
    case Aquarius => "Aquarius"
    case SoroswapPair => "SoroswapPair"
    case Phoenix => "Phoenix"
    case Sushi => "Sushi"
    case CometDex => "CometDex"
  }

  /** `symbol_dex_source`. */
  function SourceOfSymbol(symbol: string): string {
    if symbol == "Aquarius" then "aquarius"
    else if symbol == "SoroswapPair" then "soroswap"
    else if symbol == "Phoenix" then "phoenix"
    else if symbol == "Sushi" then "sushi"
    else if symbol == "CometDex" then "comet"
    else symbol
  }

  /** `dex_tag_to_source`. */
  function SourceOfTag(tag: uint32): string {
    if tag == 0 then "aquarius"
    else if tag == 1 then "soroswap"
    else if tag == 2 then "phoenix"
    else if tag == 3 then "sushi"
    else if tag == 4 then "comet"
    else "dex_" + Decimal.ToString(tag)
  }

  /** The two names of a venue agree. */
  lemma SameSource(d: DexType)
    ensures SourceOfTag(DexTag(d)) == SourceOfSymbol(DexName(d))
  {
  }

  // ----- Legs from the arguments -----

  /** The leg `parse_step` makes of one well-formed step. */
  function StepLeg(step: SwapStep, index: uint32, amountIn: int128): ParsedLeg {
    ParsedLeg(index, SourceOfSymbol(DexName(step.dexType)), Some(step.dexId), Some(step.tokenIn), Some(step.tokenOut), Some(amountIn),
              None, false)
  }

  function PathLegs(route: SubRoute, base: uint32): (legs: seq<ParsedLeg>)
    requires base + |route.steps| <= U32_MAX + 1
    ensures |legs| == |route.steps|
    ensures forall j :: 0 <= j < |legs| ==> legs[j] == StepLeg(route.steps[j], base + j, route.amountIn)
  {
    seq(|route.steps|, j requires 0 <= j < |route.steps| => StepLeg(route.steps[j], base + j, route.amountIn))
  }

  /** Hop numbers stay within 32 bits: what the contract checks for the hop counter after all routes. */
  predicate Fits(routes: seq<SubRoute>, base: uint32) {
    forall i :: 0 <= i < |routes| ==> base + |routes[i].steps| <= U32_MAX
  }

  /** The legs of the first i routes: parallel routes share hop numbers. */
  function RouteLegs(routes: seq<SubRoute>, i: nat, base: uint32): seq<ParsedLeg>
    requires i <= |routes| && Fits(routes, base)
  {
    if i == 0 then [] else RouteLegs(routes, i - 1, base) + PathLegs(routes[i - 1], base)
  }

  /** The legs of a round trip: the back leg continues after the longest path out. */
  function RoundTripLegs(legOut: seq<SubRoute>, legBack: seq<SubRoute>): seq<ParsedLeg>
    requires Fits(legOut, 0) && Fits(legBack, Depth(legOut, |legOut|))
  {
    RouteLegs(legOut, |legOut|, 0) + RouteLegs(legBack, |legBack|, Depth(legOut, |legOut|))
  }

  lemma {:induction false} FitsDepth(routes: seq<SubRoute>, i: nat, base: uint32)
    requires i <= |routes| && base + Depth(routes, i) <= U32_MAX
    requires forall k :: 0 <= k < i ==> |routes[k].steps| <= U32_MAX
    ensures forall k :: 0 <= k < i ==> base + |routes[k].steps| <= U32_MAX
  {
    if i == 0 {
    } else {
      FitsDepth(routes, i - 1, base);
    }
  }

  // ----- Legs from the events -----

  /** The leg row made of a `leg` event. */
  function EventLeg(e: AggregatorEvent): ParsedLeg
    requires e.Leg?
  {
    ParsedLeg(e.hop, SourceOfTag(e.dexTag), Some(e.pool), Some(e.tokenIn), None, Some(e.amountIn), None, true)
  }

  function EventLegs(events: seq<AggregatorEvent>): (legs: seq<ParsedLeg>)
    requires forall i :: 0 <= i < |events| ==> events[i].Leg?
    ensures |legs| == |events| && forall i :: 0 <= i < |events| ==> legs[i] == EventLeg(events[i])
  {
    seq(|events|, i requires 0 <= i < |events| => EventLeg(events[i]))
  }

  /** An event announces a leg of the arguments: same hop, venue, pool and input token. */
  ghost predicate Announces(e: AggregatorEvent, l: ParsedLeg) {
    e.Leg? && Key(EventLeg(e)) == Key(l) && Some(e.tokenIn) == l.tokenIn
  }

  ghost predicate AnnouncesAll(events: seq<AggregatorEvent>, legs: seq<ParsedLeg>) {
    |events| == |legs| && forall i :: 0 <= i < |events| ==> Announces(events[i], legs[i])
  }

  lemma AnnouncesConcat(a: seq<AggregatorEvent>, x: seq<ParsedLeg>, b: seq<AggregatorEvent>, y: seq<ParsedLeg>)
    requires AnnouncesAll(a, x) && AnnouncesAll(b, y)
    ensures AnnouncesAll(a + b, x + y)
  {
    hide Announces;
  }

  lemma StepEmits(c: Chain, user: Address, step: SwapStep, amountIn: int128, hop: uint32, reply: Reply, c1: Chain, out: int128)
    requires Step(c, user, step, amountIn, hop, reply) == Ok((c1, out))
    ensures c1.log == c.log + [Leg(hop, DexTag(step.dexType), step.dexId, step.tokenIn, amountIn)]
  {
    hide Transfer, PairQuote, Balance;
  }

  /** A path emits its legs in order, after whatever the log held. */
  lemma {:induction false} HopsEmit(c: Chain, user: Address, route: SubRoute, i: nat, amount: int128, base: uint32,
                                    replies: seq<Reply>, first: nat, c1: Chain, out: int128) returns (events: seq<AggregatorEvent>)
    requires i <= |route.steps| && base + |route.steps| <= U32_MAX
    requires Hops(c, user, route.steps, i, amount, base, replies, first) == Ok((c1, out))
    ensures c1.log == c.log + events && AnnouncesAll(events, PathLegs(route, base)[i..])
    decreases |route.steps| - i
  {
    hide Hops, Step, PathLegs, AnnouncesAll, Announces, Key;
    if i == |route.steps| {
      events := [];
      HopsEnd(c, user, route.steps, amount, base, replies, first);
      NoHopsLeft(route, base);
    } else {
      var c2, out2 := Settlement.HopsUnroll(c, user, route.steps, i, amount, base, replies, first);
      StepEmits(c, user, route.steps[i], amount, base + i, ReplyAt(replies, first + i), c2, out2);
      var rest := HopsEmit(c2, user, route, i + 1, out2, base, replies, first, c1, out);
      var e := Leg(base + i, DexTag(route.steps[i].dexType), route.steps[i].dexId, route.steps[i].tokenIn, amount);
      events := [e] + rest;
      HopAnnounced(route, base, i, amount);
      assert PathLegs(route, base)[i..] == [PathLegs(route, base)[i]] + PathLegs(route, base)[i + 1..];
      AnnouncesConcat([e], [PathLegs(route, base)[i]], rest, PathLegs(route, base)[i + 1..]);
      assert c1.log == c.log + events;
    }
  }

  lemma HopAnnounced(route: SubRoute, base: uint32, i: nat, amount: int128)
    requires i < |route.steps| && base + |route.steps| <= U32_MAX
    ensures var step := route.steps[i];
            AnnouncesAll([Leg(base + i, DexTag(step.dexType), step.dexId, step.tokenIn, amount)], [PathLegs(route, base)[i]])
  {
    SameSource(route.steps[i].dexType);
  }

  lemma NoHopsLeft(route: SubRoute, base: uint32)
    requires base + |route.steps| <= U32_MAX
    ensures AnnouncesAll([], PathLegs(route, base)[|route.steps|..])
  {
  }

  lemma HopsEnd(c: Chain, user: Address, steps: seq<SwapStep>, amount: int128, base: uint32, replies: seq<Reply>, first: nat)
    ensures Hops(c, user, steps, |steps|, amount, base, replies, first) == Ok((c, amount))
  {
  }

  lemma RoutesEnd(c: Chain, user: Address, routes: seq<SubRoute>, total: int128, base: uint32, replies: seq<Reply>, first: nat)
    ensures Routes(c, user, routes, |routes|, total, base, replies, first) == Ok((c, total))
  {
  }

  lemma PathIsHops(c: Chain, user: Address, route: SubRoute, base: uint32, replies: seq<Reply>, first: nat)
    requires Path(c, user, route, base, replies, first).Ok?
    ensures Path(c, user, route, base, replies, first) == Hops(c, user, route.steps, 0, route.amountIn, base, replies, first)
  {
  }

  lemma {:induction false} RoutesEmit(c: Chain, user: Address, routes: seq<SubRoute>, i: nat, total: int128, base: uint32,
                                      replies: seq<Reply>, first: nat, c1: Chain, out: int128, before: seq<AggregatorEvent>)
    returns (events: seq<AggregatorEvent>)
    requires i <= |routes| && Fits(routes, base) && AnnouncesAll(before, RouteLegs(routes, i, base))
    requires Routes(c, user, routes, i, total, base, replies, first) == Ok((c1, out))
    ensures c1.log == c.log + events && AnnouncesAll(before + events, RouteLegs(routes, |routes|, base))
    decreases |routes| - i
  {
    hide Routes, Path, Hops, AnnouncesAll;
    if i == |routes| {
      events := [];
      RoutesEnd(c, user, routes, total, base, replies, first);
      assert before + events == before;
    } else {
      var c2, out2 := Settlement.RoutesUnroll(c, user, routes, i, total, base, replies, first);
      PathIsHops(c, user, routes[i], base, replies, first + HopsBefore(routes, i));
      var mine := HopsEmit(c, user, routes[i], 0, routes[i].amountIn, base, replies, first + HopsBefore(routes, i), c2, out2);
      assert PathLegs(routes[i], base)[0..] == PathLegs(routes[i], base);
      AnnouncesConcat(before, RouteLegs(routes, i, base), mine, PathLegs(routes[i], base));
      var rest := RoutesEmit(c2, user, routes, i + 1, total + out2, base, replies, first, c1, out, before + mine);
      events := mine + rest;
      assert before + events == (before + mine) + rest;
      assert c1.log == c.log + events;
    }
  }

  lemma SubRoutesEmit(c: Chain, user: Address, routes: seq<SubRoute>, base: uint32, replies: seq<Reply>, first: nat,
                      c1: Chain, out: int128, next: uint32) returns (events: seq<AggregatorEvent>)
    requires ShortPaths(routes) && SubRoutes(c, user, routes, base, replies, first) == Ok((c1, out, next))
    ensures Fits(routes, base) && next == base + Depth(routes, |routes|)
    ensures c1.log == c.log + events && AnnouncesAll(events, RouteLegs(routes, |routes|, base))
  {
    hide Routes, AnnouncesAll;
    var r := Routes(c, user, routes, 0, 0, base, replies, first).value;
    assert Routes(c, user, routes, 0, 0, base, replies, first) == Ok((r.0, r.1));
    FitsDepth(routes, |routes|, base);
    NothingAnnounced(routes, base);
    events := RoutesEmit(c, user, routes, 0, 0, base, replies, first, c1, out, []);
    assert [] + events == events;
  }

  lemma NothingAnnounced(routes: seq<SubRoute>, base: uint32)
    requires Fits(routes, base)
    ensures AnnouncesAll([], RouteLegs(routes, 0, base))
  {
  }

  /** A path has a 32-bit length, as any vector of the host does. */
  predicate ShortPaths(routes: seq<SubRoute>) {
    forall i :: 0 <= i < |routes| ==> |routes[i].steps| <= U32_MAX
  }

  /** Legs that the same events announce. */
  ghost predicate Alike(a: seq<ParsedLeg>, b: seq<ParsedLeg>) {
    |a| == |b| && forall i :: 0 <= i < |a| ==> Key(a[i]) == Key(b[i]) && a[i].tokenIn == b[i].tokenIn
  }

  lemma AlikeConcat(a: seq<ParsedLeg>, b: seq<ParsedLeg>, x: seq<ParsedLeg>, y: seq<ParsedLeg>)
    requires Alike(a, b) && Alike(x, y)
    ensures Alike(a + x, b + y)
  {
    hide Key;
  }

  lemma {:induction false} SameStepsAlike(a: seq<SubRoute>, b: seq<SubRoute>, i: nat, base: uint32)
    requires |a| == |b| && i <= |a| && Fits(a, base) && Fits(b, base) && forall k :: 0 <= k < |a| ==> a[k].steps == b[k].steps
    ensures Alike(RouteLegs(a, i, base), RouteLegs(b, i, base))
  {
    if i == 0 {
    } else {
      SameStepsAlike(a, b, i - 1, base);
      AlikePaths(a[i - 1], b[i - 1], base);
      hide Alike, PathLegs;
      AlikeConcat(RouteLegs(a, i - 1, base), RouteLegs(b, i - 1, base), PathLegs(a[i - 1], base), PathLegs(b[i - 1], base));
    }
  }

  lemma AlikePaths(a: SubRoute, b: SubRoute, base: uint32)
    requires a.steps == b.steps && base + |a.steps| <= U32_MAX
    ensures Alike(PathLegs(a, base), PathLegs(b, base))
  {
  }

  lemma AlikeAnnounced(events: seq<AggregatorEvent>, a: seq<ParsedLeg>, b: seq<ParsedLeg>)
    requires Alike(a, b) && AnnouncesAll(events, a)
    ensures AnnouncesAll(events, b)
  {
    hide Key, EventLeg;
    forall i | 0 <= i < |events|
      ensures Announces(events[i], b[i])
    {
      assert Announces(events[i], a[i]);
    }
  }

  lemma {:induction false} SameStepsSameDepth(a: seq<SubRoute>, b: seq<SubRoute>, i: nat)
    requires |a| == |b| && i <= |a| && forall k :: 0 <= k < |a| ==> a[k].steps == b[k].steps
    ensures Depth(a, i) == Depth(b, i)
  {
    if i == 0 {
    } else {
      SameStepsSameDepth(a, b, i - 1);
    }
  }

  /** A successful swap emits, in order, the legs its arguments name, and then its summary. */
  lemma SwapEmits(c: Chain, auth: set<Address>, user: Address, tokenIn: Address, tokenOut: Address, routes: seq<SubRoute>,
                  minOut: int128, replies: seq<Reply>, c': Chain, out: int128) returns (events: seq<AggregatorEvent>, totalIn: int128)
    requires ShortPaths(routes) && Swap(c, auth, user, tokenIn, tokenOut, routes, minOut, replies) == Ok((c', out))
    ensures Fits(routes, 0) && AnnouncesAll(events, RouteLegs(routes, |routes|, 0))
    ensures totalIn == Sum(Amounts(routes))
    ensures c'.log == c.log + events + [SwapDone(user, tokenIn, tokenOut, totalIn, out, |routes|)]
  {
    hide Swap, SubRoutes, Transfer, AnnouncesAll, Sum, Amounts;
    var pulled, swapped, paid, hops := Settlement.SwapUnroll(c, auth, user, tokenIn, tokenOut, routes, minOut, replies, c', out);
    totalIn := Sum(Amounts(routes));
    events := SubRoutesEmit(pulled, user, routes, 0, replies, 0, swapped, out, hops);
  }

  /** A successful round trip emits, in order, the legs its arguments name, and then its summary: the amounts of the back
      leg are rescaled on the way, the hop numbers and pools are not. */
  lemma RoundTripEmits(c: Chain, auth: set<Address>, user: Address, base: Address, bridge: Address, amountIn: int128,
                       legOut: seq<SubRoute>, legBack: seq<SubRoute>, minOut: int128, replies: seq<Reply>, c': Chain, out: int128)
    returns (events: seq<AggregatorEvent>, depth: uint32)
    requires ShortPaths(legOut) && ShortPaths(legBack)
    requires RoundTrip(c, auth, user, base, bridge, amountIn, legOut, legBack, minOut, replies) == Ok((c', out))
    ensures Fits(legOut, 0) && Fits(legBack, Depth(legOut, |legOut|))
    ensures AnnouncesAll(events, RoundTripLegs(legOut, legBack))
    ensures depth == Depth(legOut, |legOut|) + Depth(legBack, |legBack|)
    ensures c'.log == c.log + events
                      + [RoundTripDone(user, base, bridge, amountIn, out, depth, |legOut| > 1 || |legBack| > 1)]
  {
    hide RoundTrip, SubRoutes, Transfer, AnnouncesAll, RouteLegs, Rescale.ScaleSubRoutesToTotal, Depth, Sum, Amounts;
    var r := Settlement.RoundTripUnroll(c, auth, user, base, bridge, amountIn, legOut, legBack, minOut, replies, c', out);
    Rescale.ScaledRoutesAreExact(legBack, r.bridgeTotal);
    var there := SubRoutesEmit(r.pulled, user, legOut, 0, replies, 0, r.bridged, r.bridgeTotal, r.hops);
    var back := SubRoutesEmit(r.bridged, user, r.scaled, r.hops, replies, HopsBefore(legOut, |legOut|), r.returned, out, r.depth);
    SameStepsSameDepth(r.scaled, legBack, |legBack|);
    SameStepsAlike(r.scaled, legBack, |legBack|, r.hops);
    AlikeAnnounced(back, RouteLegs(r.scaled, |legBack|, r.hops), RouteLegs(legBack, |legBack|, r.hops));
    AnnouncesConcat(there, RouteLegs(legOut, |legOut|, 0), back, RouteLegs(legBack, |legBack|, r.hops));
    events, depth := there + back, r.depth;
    assert c'.log == c.log + events
                      + [RoundTripDone(user, base, bridge, amountIn, out, depth, |legOut| > 1 || |legBack| > 1)];
  }

  /** The rows made of announced events have the keys of the argument legs, in the same order, and their input tokens. */
  lemma AnnouncedKeys(events: seq<AggregatorEvent>, legs: seq<ParsedLeg>)
    requires AnnouncesAll(events, legs)
    ensures forall i :: 0 <= i < |events| ==> events[i].Leg?
    ensures Keys(EventLegs(events)) == Keys(legs)
    ensures forall i :: 0 <= i < |legs| ==> EventLegs(events)[i].tokenIn == legs[i].tokenIn
  {
    assert forall i :: 0 <= i < |events| ==> Announces(events[i], legs[i]);
  }
}
