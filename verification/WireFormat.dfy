// The formats on the wire, field by field: which events the indexer takes, and how calls are encoded.

module WireFormat {
  import opened Base
  import opened Codec
  import opened LegEvents
  import opened Legs
  import opened OrderEvents
  import opened ScVal
  import Decimal

  // ----- Escrow events -----

  predicate IsInteger(v: ScVal) {
    v.ScI128? || v.ScU64? || v.ScU32?
  }

  predicate IsLedger(v: ScVal) {
    v.ScU32? || (v.ScU64? && v.u64 <= 0xFFFF_FFFF)
  }

  /** Which data an event of the escrow must carry, by its name. */
  ghost predicate Readable(kind: string, f: seq<ScVal>) {
    if kind == "order_created" then
      |f| >= 6 && (forall i :: 0 <= i < 3 ==> f[i].ScAddress?) && IsInteger(f[3]) && IsInteger(f[4]) && IsLedger(f[5])
    else if kind == "order_filled" then |f| >= 4 && IsInteger(f[3])
    else if kind == "order_cancelled" || kind == "order_expired" then |f| >= 2
    else if kind == "dca_created" then
      && |f| >= 9 && (forall i :: 0 <= i < 3 ==> f[i].ScAddress?) && IsInteger(f[3]) && IsInteger(f[4]) && IsLedger(f[5])
      && IsLedger(f[6]) && IsInteger(f[7]) && IsLedger(f[8])
    else if kind == "dca_filled" then |f| >= 5 && IsInteger(f[3]) && IsLedger(f[4])
    else kind == "dca_cancelled" || kind == "dca_expired"
  }

  /** An event is taken exactly when it is a contract event of a call that did not fail, its topic is a name and an order id, and its
      data are those of its name. */
  lemma ParsesExactly(e: ContractEvent)
    ensures Parse(e).Parsed? <==>
            && e.eventType == "contract" && e.inSuccessfulCall != Some(false)
            && e.topic.Some? && |e.topic.value| >= 2 && e.topic.value[0].ScSymbol?
            && (e.topic.value[1].ScU64? || e.topic.value[1].ScU32?)
            && e.value.Some? && e.value.value.ScVec? && e.value.value.items.Some?
            && Readable(e.topic.value[0].symbol, e.value.value.items.value)
  {
    hide Decimal.ToString, JoinWords;
  }

  /** An event of the escrow, by its parts. */
  function Event(kind: string, id: uint64, f: seq<ScVal>, contract: Address, ledger: uint32, closedAt: CloseTime): ContractEvent {
    ContractEvent("contract", ledger, contract, Some([ScSymbol(kind), ScU64(id)]), Some(ScVec(Some(f))), Some(true), closedAt)
  }

  /** What an event says of its order, by its name and its fields in their places; and when: at the ledger's close, or every five
      seconds where the close time is unknown. */
  lemma ReadsLimitEvents(id: uint64, contract: Address, ledger: uint32, closedAt: CloseTime, owner: Address, tokenIn: Address,
                         tokenOut: Address, a: int128, b: int128, c: int128, x: uint32)
    ensures var at := if closedAt.At? then closedAt.time else 5 * ledger;
            && Parse(Event("order_created", id, [ScAddress(owner), ScAddress(tokenIn), ScAddress(tokenOut), EncodeI128(a), EncodeI128(b),
                                                 ScU32(x)], contract, ledger, closedAt))
               == Parsed(ParsedEvent(contract, id, Created(LimitTerms(owner, tokenIn, tokenOut, Decimal.ToString(a),
                                                                      Decimal.ToString(b), x), None), ledger, at))
            && Parse(Event("order_filled", id, [ScAddress(owner), EncodeI128(a), EncodeI128(b), EncodeI128(c)], contract, ledger, closedAt))
               == Parsed(ParsedEvent(contract, id, FilledTo(Decimal.ToString(c)), ledger, at))
            && Parse(Event("order_cancelled", id, [ScAddress(owner), EncodeI128(a)], contract, ledger, closedAt))
               == Parsed(ParsedEvent(contract, id, CancelledNow(false), ledger, at))
            && Parse(Event("order_expired", id, [ScAddress(owner), EncodeI128(a)], contract, ledger, closedAt))
               == Parsed(ParsedEvent(contract, id, ExpiredNow(false), ledger, at))
  {
    hide Decimal.ToString, EncodeI128, JoinWords;
    FieldsReadBack(a);
    FieldsReadBack(b);
    FieldsReadBack(c);
  }

  lemma ReadsDcaEvents(id: uint64, contract: Address, ledger: uint32, closedAt: CloseTime, owner: Address, tokenIn: Address,
                       tokenOut: Address, a: int128, b: int128, c: int128, x: uint32, y: uint32, z: uint32)
    ensures var at := if closedAt.At? then closedAt.time else 5 * ledger;
            && Parse(Event("dca_created", id, [ScAddress(owner), ScAddress(tokenIn), ScAddress(tokenOut), EncodeI128(a), EncodeI128(b),
                                               ScU32(x), ScU32(y), EncodeI128(c), ScU32(z)], contract, ledger, closedAt))
               == Parsed(ParsedEvent(contract, id, Created(DcaTerms(owner, tokenIn, tokenOut, Decimal.ToString(a), Decimal.ToString(b), x,
                                                                    Decimal.ToString(c), z), Some(y)), ledger, at))
            && Parse(Event("dca_filled", id, [ScAddress(owner), EncodeI128(a), EncodeI128(b), EncodeI128(c), ScU32(x)],
                           contract, ledger, closedAt))
               == Parsed(ParsedEvent(contract, id, DcaFilledTo(Decimal.ToString(c), x), ledger, at))
            && Parse(Event("dca_cancelled", id, [ScAddress(owner), EncodeI128(a)], contract, ledger, closedAt))
               == Parsed(ParsedEvent(contract, id, CancelledNow(true), ledger, at))
            && Parse(Event("dca_expired", id, [ScAddress(owner), EncodeI128(a)], contract, ledger, closedAt))
               == Parsed(ParsedEvent(contract, id, ExpiredNow(true), ledger, at))
  {
    hide Decimal.ToString, EncodeI128, JoinWords;
    FieldsReadBack(a);
    FieldsReadBack(b);
    FieldsReadBack(c);
  }

  // ----- Aggregator events -----

  /** The leg formats, old and new, and what each leaves unknown. */
  lemma ReadsLegs(hop: uint32, tag: uint32, pool: Address, tokenIn: Address, tokenOut: Address, a: int128, b: int128)
    ensures ParseLeg([ScU32(hop), ScU32(tag), ScAddress(pool), EncodeI128(a)])
            == Ok(ParsedLeg(hop, SourceOfTag(tag), Some(pool), None, None, Some(a), None, true))
    ensures ParseLeg([ScU32(hop), ScU32(tag), ScAddress(pool), ScAddress(tokenIn), EncodeI128(a)])
            == Ok(ParsedLeg(hop, SourceOfTag(tag), Some(pool), Some(tokenIn), None, Some(a), None, true))
    ensures ParseLeg([ScU32(hop), ScU32(tag), ScAddress(pool), ScAddress(tokenIn), ScAddress(tokenOut), EncodeI128(a), EncodeI128(b)])
            == Ok(ParsedLeg(hop, SourceOfTag(tag), Some(pool), Some(tokenIn), Some(tokenOut), Some(a), Some(b), true))
  {
    hide SourceOfTag, EncodeI128, JoinWords;
    FieldsReadBack(a);
    FieldsReadBack(b);
  }

  /** The summary formats; a round trip without a split flag counts as unsplit. */
  lemma ReadsSummaries(user: Address, tokenIn: Address, tokenOut: Address, a: int128, b: int128, n: uint32, split: bool)
    ensures ParseSwapSummary([ScAddress(user), ScAddress(tokenIn), ScAddress(tokenOut), EncodeI128(a), EncodeI128(b), ScU32(n)])
            == Ok(Summary("swap", user, tokenIn, tokenOut, None, a, b, n > 1))
    ensures var f := [ScAddress(user), ScAddress(tokenIn), ScAddress(tokenOut), EncodeI128(a), EncodeI128(b), ScU32(n)];
            && ParseRoundTripSummary(f) == Ok(Summary("round_trip_swap", user, tokenIn, tokenIn, Some(tokenOut), a, b, false))
            && ParseRoundTripSummary(f + [ScBool(split)])
               == Ok(Summary("round_trip_swap", user, tokenIn, tokenIn, Some(tokenOut), a, b, split))
  {
    hide EncodeI128, JoinWords;
    FieldsReadBack(a);
    FieldsReadBack(b);
  }

  /** Which event of a transaction is what: "swap" and "rt" give its summary, the first of them only, and "leg" one leg more; what the
      last event says of ledger, close time and success holds. A record is failed only where the RPC says so. */
  lemma ReadsBundles(b: Bundle, e: ContractEvent, kind: string, f: seq<ScVal>)
    requires e.eventType == "contract" && e.topic.Some? && |e.topic.value| >= 1 && e.topic.value[0] == ScSymbol(kind)
    requires e.value == Some(ScVec(Some(f)))
    ensures var b' := Absorb(Some(b), e);
            && (kind == "leg" ==> if ParseLeg(f).Ok? then b'.Ok? && b'.value.legs == b.legs + [ParseLeg(f).value] else b'.Err?)
            && (kind == "swap" && b.summary.None? ==>
                  if ParseSwapSummary(f).Ok? then b'.Ok? && b'.value.summary == Some(ParseSwapSummary(f).value) else b'.Err?)
            && (kind == "rt" && b.summary.None? ==>
                  if ParseRoundTripSummary(f).Ok? then b'.Ok? && b'.value.summary == Some(ParseRoundTripSummary(f).value) else b'.Err?)
            && (b'.Ok? ==>
                  && (kind != "leg" ==> b'.value.legs == b.legs)
                  && ((kind != "swap" && kind != "rt") || b.summary.Some? ==> b'.value.summary == b.summary)
                  && b'.value.ledger == e.ledger
                  && b'.value.closedAt == (if e.closedAt.NoTime? then b.closedAt else e.closedAt)
                  && b'.value.inSuccessfulCall == (if e.inSuccessfulCall.Some? then e.inSuccessfulCall else b.inSuccessfulCall))
    ensures b.summary.Some? ==>
              && RecordOf(b).value.ledger == b.ledger
              && RecordOf(b).value.status == (if b.inSuccessfulCall == Some(false) then "FAILED" else "SUCCESS")
              && RecordOf(b).value.createdAt == if b.closedAt.At? then b.closedAt.time else 5 * b.ledger
  {
    hide ParseLeg, ParseSwapSummary, ParseRoundTripSummary;
  }

  /** The numbers, names and sources of the venues. */
  lemma VenueNames(d: DexType)
    ensures var (tag, name, source) := match d
              case Aquarius => (0, "Aquarius", "aquarius")
              case SoroswapPair => (1, "SoroswapPair", "soroswap")
              case Phoenix => (2, "Phoenix", "phoenix")
              case Sushi => (3, "Sushi", "sushi")
              case CometDex => (4, "CometDex", "comet");
            && DexTag(d) == tag && DexName(d) == name && SourceOfTag(tag) == source && SourceOfSymbol(name) == source
            && DexOf(source) == Some(d)
  {
  }

  // ----- Calls -----

  /** Text in the order of its characters, as the host sorts the keys of a map. */
  predicate Precedes(a: string, b: string) {
    if b == "" then false
    else if a == "" then true
    else a[0] < b[0] || (a[0] == b[0] && Precedes(a[1..], b[1..]))
  }

  ghost predicate SortedMap(v: ScVal) {
    && v.ScMap? && v.fields.Some?
    && (forall i :: 0 <= i < |v.fields.value| ==> v.fields.value[i].0.ScSymbol?)
    && forall i :: 0 < i < |v.fields.value| ==> Precedes(v.fields.value[i - 1].0.symbol, v.fields.value[i].0.symbol)
  }

  lemma NamesInOrder()
    ensures Precedes("dex_id", "dex_type") && Precedes("dex_type", "in_idx") && Precedes("in_idx", "out_idx")
    ensures Precedes("out_idx", "token_in") && Precedes("token_in", "token_out") && Precedes("amount_in", "steps")
  {
    Shared("dex_", "id", "type");
    assert "dex_" + "id" == "dex_id" && "dex_" + "type" == "dex_type";
    Shared("token_", "in", "out");
    assert "token_" + "in" == "token_in" && "token_" + "out" == "token_out";
  }

  /** The host refuses maps whose keys are not in order; the encoded steps and routes are. */
  lemma EncodedMapsAreSorted(step: SwapStep, route: SubRoute)
    ensures SortedMap(StepValue(step)) && SortedMap(RouteValue(route))
  {
    hide StepValues, Precedes, DexValue, EncodeI128;
    NamesInOrder();
    var s, r := StepValue(step).fields.value, RouteValue(route).fields.value;
    assert s[0].0 == ScSymbol("dex_id") && s[1].0 == ScSymbol("dex_type") && s[2].0 == ScSymbol("in_idx");
    assert s[3].0 == ScSymbol("out_idx") && s[4].0 == ScSymbol("token_in") && s[5].0 == ScSymbol("token_out");
    assert r[0].0 == ScSymbol("amount_in") && r[1].0 == ScSymbol("steps");
  }

  lemma {:induction false} Shared(prefix: string, a: string, b: string)
    requires Precedes(a, b) && b != ""
    ensures Precedes(prefix + a, prefix + b)
  {
    if prefix == "" {
      assert prefix + a == a && prefix + b == b;
    } else {
      Shared(prefix[1..], a, b);
      assert (prefix + a)[1..] == prefix[1..] + a && (prefix + b)[1..] == prefix[1..] + b;
    }
  }

  /** An encoded step and route have the contract's field names, each with its value. */
  lemma EncodedFields(step: SwapStep, route: SubRoute)
    ensures var s, r := StepValue(step).fields.value, RouteValue(route).fields.value;
            && GetField(s, "dex_id") == Some(ScAddress(step.dexId))
            && GetField(s, "dex_type") == Some(ScVec(Some([ScSymbol(DexName(step.dexType))])))
            && GetField(s, "in_idx") == Some(ScU32(step.inIdx)) && GetField(s, "out_idx") == Some(ScU32(step.outIdx))
            && GetField(s, "token_in") == Some(ScAddress(step.tokenIn)) && GetField(s, "token_out") == Some(ScAddress(step.tokenOut))
            && GetField(r, "amount_in") == Some(EncodeI128(route.amountIn))
            && GetField(r, "steps") == Some(ScVec(Some(StepValues(route.steps))))
            && |s| == 6 && |r| == 2
  {
    hide StepValues, EncodeI128, DexName, GetField;
    var s, r := StepValue(step).fields.value, RouteValue(route).fields.value;
    FieldAt(s, 0, "dex_id");
    FieldAt(s, 1, "dex_type");
    FieldAt(s, 2, "in_idx");
    FieldAt(s, 3, "out_idx");
    FieldAt(s, 4, "token_in");
    FieldAt(s, 5, "token_out");
    FieldAt(r, 0, "amount_in");
    FieldAt(r, 1, "steps");
  }

  lemma {:induction false} NoField(f: seq<(ScVal, ScVal)>, key: string)
    requires forall j :: 0 <= j < |f| ==> f[j].0 != ScSymbol(key)
    ensures GetField(f, key) == None
  {
    if f != [] {
      NoField(f[1..], key);
    }
  }

  /** A step that lacks fields still counts as a hop, of an unknown venue. */
  lemma ReadsBareStep(index: uint32, amountIn: Option<int128>, tokenIn: Address)
    ensures ParseStep([], index, amountIn) == Ok(ParsedLeg(index, "unknown", None, None, None, amountIn, None, false))
    ensures ParseStep([(ScSymbol("dex_type"), ScSymbol("Sushi")), (ScSymbol("token_in"), ScAddress(tokenIn))], index, amountIn)
            == Ok(ParsedLeg(index, "sushi", None, Some(tokenIn), None, amountIn, None, false))
  {
    hide GetField;
    NoField([], "dex_id");
    NoField([], "dex_type");
    NoField([], "token_in");
    NoField([], "token_out");
    var f := [(ScSymbol("dex_type"), ScSymbol("Sushi")), (ScSymbol("token_in"), ScAddress(tokenIn))];
    FieldAt(f, 0, "dex_type");
    FieldAt(f, 1, "token_in");
    NoField(f, "dex_id");
    NoField(f, "token_out");
  }

  /** Arguments beyond the known ones are ignored, and a call with fewer is refused. */
  lemma ExtraArguments(args: seq<ScVal>, amountOut: Option<int128>)
    ensures |args| >= 7 ==> ParseRoundTrip(args, amountOut) == ParseRoundTrip(args[..7], amountOut)
    ensures |args| >= 5 ==> ParseSwapCall(args, amountOut) == ParseSwapCall(args[..5], amountOut)
    ensures |args| < 7 ==> ParseRoundTrip(args, amountOut).Err?
    ensures |args| < 5 ==> ParseSwapCall(args, amountOut).Err?
  {
    hide RoutesFrom, DepthOf, TotalIn;
  }
}
