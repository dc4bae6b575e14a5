// Invocation records built from the aggregator's events, transaction by transaction.

module LegEvents {
  import opened Base
  import opened Ledger
  import opened Legs
  import opened OrderEvents
  import opened ScVal

  datatype TxEvent = TxEvent(txHash: string, event: ContractEvent)

  // ----- What the aggregator puts on the wire -----

  function KindOf(e: AggregatorEvent): string {
    match e
    case Leg(_, _, _, _, _) => "leg"
    case SwapDone(_, _, _, _, _, _) => "swap"
    case RoundTripDone(_, _, _, _, _, _, _) => "rt"
  }

  /** The count of routes is a 32-bit number on chain. */
  predicate Publishable(e: AggregatorEvent) {
    e.SwapDone? ==> e.routes <= U32_MAX
  }

  function Fields(e: AggregatorEvent): seq<ScVal>
    requires Publishable(e)
  {
    match e
    case Leg(hop, dexTag, pool, tokenIn, amountIn) =>
      [ScU32(hop), ScU32(dexTag), ScAddress(pool), ScAddress(tokenIn), EncodeI128(amountIn)]
    case SwapDone(user, tokenIn, tokenOut, totalIn, totalOut, routes) =>
      [ScAddress(user), ScAddress(tokenIn), ScAddress(tokenOut), EncodeI128(totalIn), EncodeI128(totalOut), ScU32(routes)]
    case RoundTripDone(user, base, bridge, amountIn, baseTotal, depth, isSplit) =>
      [ScAddress(user), ScAddress(base), ScAddress(bridge), EncodeI128(amountIn), EncodeI128(baseTotal), ScU32(depth), ScBool(isSplit)]
  }

  function Wire(txHash: string, ledger: uint32, closedAt: CloseTime, e: AggregatorEvent): TxEvent
    requires Publishable(e)
  {
    TxEvent(txHash, ContractEvent("contract", ledger, Aggregator, Some([ScSymbol(KindOf(e))]), Some(ScVec(Some(Fields(e)))),
                                  Some(true), closedAt))
  }

  // ----- Scalars -----

  function ToU32(v: ScVal): Option<uint32> {
    match v
    case ScU32(x) => Some(x)
    case ScI128(hi, lo) => if hi == 0 && lo <= U32_MAX then Some(lo) else None
    case _ => None
  }

  function ToBool(v: ScVal): Option<bool> {
    if v.ScBool? then Some(v.b) else None
  }

  function ToAddress(v: ScVal): Result<Address> {
    if v.ScAddress? then Ok(v.address) else Err(Trap)
  }

  function Or<T>(a: Option<T>, b: Option<T>): Option<T> {
    if a.Some? then a else b
  }

  function OrElse<T>(o: Option<T>, d: T): T {
    if o.Some? then o.value else d
  }

  // ----- The parsers -----

  datatype Summary = Summary(functionName: string, user: Address, tokenIn: Address, tokenOut: Address, bridge: Option<Address>,
                             amountIn: int128, amountOut: int128, isSplit: bool)

  function ParseSwapSummary(f: seq<ScVal>): Result<Summary> {
    if |f| < 6 then Err(Trap)
    else
      var user :- ToAddress(f[0]);
      var tokenIn :- ToAddress(f[1]);
      var tokenOut :- ToAddress(f[2]);
      Ok(Summary("swap", user, tokenIn, tokenOut, None, OrElse(IntegerOf(f[3]), 0), OrElse(IntegerOf(f[4]), 0), OrElse(ToU32(f[5]), 0) > 1))
  }

  /** The split flag is the seventh field; events of six fields have none. */
  function ParseRoundTripSummary(f: seq<ScVal>): Result<Summary> {
    if |f| < 6 then Err(Trap)
    else
      var base :- ToAddress(f[1]);
      var bridge :- ToAddress(f[2]);
      var user :- ToAddress(f[0]);
      Ok(Summary("round_trip_swap", user, base, base, Some(bridge), OrElse(IntegerOf(f[3]), 0), OrElse(IntegerOf(f[4]), 0),
                 |f| > 6 && OrElse(ToBool(f[6]), false)))
  }

  /** `parse_leg`: three generations of the event, told apart by their number of fields. */
  function ParseLeg(f: seq<ScVal>): Result<ParsedLeg> {
    if |f| != 4 && |f| != 5 && |f| != 7 then Err(Trap)
    else
      var tokenIn :- if |f| == 4 then Ok(None) else SomeAddress(f[3]);
      var tokenOut :- if |f| == 7 then SomeAddress(f[4]) else Ok(None);
      var amountIn := IntegerOf(f[if |f| == 4 then 3 else if |f| == 5 then 4 else 5]);
      var amountOut := if |f| == 7 then IntegerOf(f[6]) else None;
      var pool :- ToAddress(f[2]);
      Ok(ParsedLeg(OrElse(ToU32(f[0]), 0), SourceOfTag(OrElse(ToU32(f[1]), 99)), Some(pool), tokenIn, tokenOut, amountIn, amountOut, true))
  }

  function SomeAddress(v: ScVal): Result<Option<Address>> {
    var a :- ToAddress(v);
    Ok(Some(a))
  }

  function DataFields(e: ContractEvent): Result<seq<ScVal>> {
    if e.value.Some? && e.value.value.ScVec? && e.value.value.items.Some? then Ok(e.value.value.items.value) else Err(Trap)
  }

  // ----- Bundles -----

  datatype Bundle = Bundle(ledger: uint32, closedAt: CloseTime, inSuccessfulCall: Option<bool>, summary: Option<Summary>,
                           legs: seq<ParsedLeg>)

  /** The events `build_invocations_from_events` looks at. */
  predicate Relevant(e: ContractEvent) {
    e.eventType == "contract" && e.topic.Some? && e.topic.value != [] && e.topic.value[0].ScSymbol?
  }

  /** One event added to the bundle of its transaction. */
  function Absorb(bundle: Option<Bundle>, e: ContractEvent): Result<Bundle>
    requires Relevant(e)
  {
    var b := if bundle.Some? then bundle.value else Bundle(e.ledger, e.closedAt, e.inSuccessfulCall, None, []);
    var b1 := b.(ledger := e.ledger, closedAt := if e.closedAt.NoTime? then b.closedAt else e.closedAt,
                 inSuccessfulCall := Or(e.inSuccessfulCall, b.inSuccessfulCall));
    var kind := e.topic.value[0].symbol;
    if kind == "swap" && b1.summary.None? then
      var f :- DataFields(e);
      var s :- ParseSwapSummary(f);
      Ok(b1.(summary := Some(s)))
    else if kind == "rt" && b1.summary.None? then
      var f :- DataFields(e);
      var s :- ParseRoundTripSummary(f);
      Ok(b1.(summary := Some(s)))
    else if kind == "leg" then
      var f :- DataFields(e);
      var leg :- ParseLeg(f);
      Ok(b1.(legs := b1.legs + [leg]))
    else Ok(b1)
  }

  /** A transaction's own events, in order. */
  function OfTx(events: seq<TxEvent>, txHash: string): seq<ContractEvent> {
    if events == [] then []
    else
      var last := events[|events| - 1];
      OfTx(events[..|events| - 1], txHash) + if last.txHash == txHash then [last.event] else []
  }

  /** The bundle of one transaction from its own events. */
  function BundleOf(events: seq<ContractEvent>): Result<Option<Bundle>> {
    if events == [] then Ok(None)
    else
      var b :- BundleOf(events[..|events| - 1]);
      Extended(b, events[|events| - 1])
  }

  function Extended(b: Option<Bundle>, e: ContractEvent): Result<Option<Bundle>> {
    if !Relevant(e) then Ok(b)
    else
      var b' :- Absorb(b, e);
      Ok(Some(b'))
  }

  /** An event extends the bundle of its own transaction and no other. */
  lemma NextBundle(events: seq<TxEvent>, i: nat, txHash: string)
    requires i < |events|
    ensures var b := BundleOf(OfTx(events[..i], txHash));
            BundleOf(OfTx(events[..i + 1], txHash))
            == if events[i].txHash == txHash && b.Ok? then Extended(b.value, events[i].event) else b
  {
    hide Extended;
    assert events[..i + 1][..i] == events[..i];
    var own := OfTx(events[..i], txHash);
    if events[i].txHash == txHash {
      assert (own + [events[i].event])[..|own|] == own;
    } else {
      assert own + [] == own;
    }
  }

  datatype Record = Record(ledger: uint32, createdAt: int64, status: string, parsed: Invocation)

  /** A bundle without a summary makes no record. */
  function RecordOf(b: Bundle): (r: Option<Record>)
    ensures r.Some? <==> b.summary.Some?
  {
    if b.summary.None? then None
    else
      var s := b.summary.value;
      Some(Record(b.ledger, UnixTime(b.closedAt, b.ledger),
                  if b.inSuccessfulCall == Some(false) then "FAILED" else "SUCCESS",
                  Invocation(s.functionName, s.user, Some(s.tokenIn), Some(s.tokenOut), s.bridge, s.amountIn, Some(s.amountOut),
                             s.isSplit, b.legs)))
  }

  lemma {:induction false} PrefixFailsFirst(events: seq<TxEvent>, n: nat, txHash: string)
    requires n <= |events| && BundleOf(OfTx(events[..n], txHash)).Err?
    ensures BundleOf(OfTx(events, txHash)).Err?
    decreases |events|
  {
    if n == |events| {
      assert events[..n] == events;
    } else {
      var front := events[..|events| - 1];
      assert front[..n] == events[..n];
      PrefixFailsFirst(front, n, txHash);
      assert OfTx(front, txHash) + [] == OfTx(front, txHash);
    }
  }

  lemma NoBundles(events: seq<TxEvent>)
    ensures forall h :: BundleOf(OfTx(events[..0], h)) == Ok(None)
  {
  }

  /** The record of every transaction with a summary, each made of its own events however the batch interleaves them. One
      malformed event refuses the whole batch. */
  method BuildInvocations(events: seq<TxEvent>) returns (r: Result<map<string, Record>>)
    ensures r.Err? <==> exists h :: BundleOf(OfTx(events, h)).Err?
    ensures r.Ok? ==> forall h ::
      var b := BundleOf(OfTx(events, h)).value;
      (h in r.value <==> b.Some? && b.value.summary.Some?) && (h in r.value ==> RecordOf(b.value) == Some(r.value[h]))
  {
    hide Absorb, RecordOf, Relevant, BundleOf, OfTx;
    assert forall h :: BundleOf(OfTx(events[..0], h)) == Ok(None) by {
      NoBundles(events);
    }
    var byTx: map<string, Bundle> := map[];
    var i := 0;
    while i < |events|
      invariant 0 <= i <= |events|
      invariant forall h :: BundleOf(OfTx(events[..i], h)) == Ok(if h in byTx then Some(byTx[h]) else None)
    {
      var h, e := events[i].txHash, events[i].event;
      forall g
        ensures var b := BundleOf(OfTx(events[..i], g));
                BundleOf(OfTx(events[..i + 1], g)) == if h == g && b.Ok? then Extended(b.value, e) else b
      {
        NextBundle(events, i, g);
      }
      if Relevant(e) {
        var r' := Absorb(if h in byTx then Some(byTx[h]) else None, e);
        if r'.Err? {
          PrefixFailsFirst(events, i + 1, h);
          return Err(r'.error);
        }
        byTx := byTx[h := r'.value];
      }
      i := i + 1;
    }
    assert events[..i] == events;
    r := Ok(map h | h in byTx && RecordOf(byTx[h]).Some? :: RecordOf(byTx[h]).value);
  }

  // ----- The record of one call -----

  /** What one call published, as the RPC serves it. */
  function Published(events: seq<AggregatorEvent>, txHash: string, ledger: uint32, closedAt: CloseTime): (w: seq<ContractEvent>)
    requires forall i :: 0 <= i < |events| ==> Publishable(events[i])
    ensures |w| == |events| && forall i :: 0 <= i < |events| ==> w[i] == Wire(txHash, ledger, closedAt, events[i]).event
  {
    seq(|events|, i requires 0 <= i < |events| => Wire(txHash, ledger, closedAt, events[i]).event)
  }

  lemma LegReadBack(e: AggregatorEvent)
    requires e.Leg?
    ensures ParseLeg(Fields(e)) == Ok(EventLeg(e))
  {
    hide EncodeI128, JoinWords, SourceOfTag;
    FieldsReadBack(e.amountIn);
  }

  lemma {:induction false} BundleOfLegs(events: seq<AggregatorEvent>, txHash: string, ledger: uint32, closedAt: CloseTime)
    requires forall i :: 0 <= i < |events| ==> events[i].Leg?
    ensures BundleOf(Published(events, txHash, ledger, closedAt))
            == Ok(if events == [] then None else Some(Bundle(ledger, closedAt, Some(true), None, EventLegs(events))))
  {
    hide ParseLeg, Fields, EventLeg, BundleOf, Extended, EventLegs;
    if events == [] {
      NothingPublished();
    } else {
      var front, last := events[..|events| - 1], events[|events| - 1];
      BundleOfLegs(front, txHash, ledger, closedAt);
      LegCompletes(BundleOf(Published(front, txHash, ledger, closedAt)).value, last, txHash, ledger, closedAt, EventLegs(front));
      var wire := Wire(txHash, ledger, closedAt, last).event;
      assert Published(events, txHash, ledger, closedAt) == Published(front, txHash, ledger, closedAt) + [wire];
      BundleNext(Published(front, txHash, ledger, closedAt), wire);
      LegsNext(front, last);
      assert front + [last] == events;
    }
  }

  lemma NothingPublished()
    ensures BundleOf([]) == Ok(None) && EventLegs([]) == []
  {
  }

  lemma LegsNext(front: seq<AggregatorEvent>, last: AggregatorEvent)
    requires last.Leg? && forall i :: 0 <= i < |front| ==> front[i].Leg?
    ensures EventLegs(front + [last]) == EventLegs(front) + [EventLeg(last)]
    ensures front == [] ==> EventLegs(front) == []
  {
  }

  /** A leg event adds its row to the bundle of its call. */
  lemma LegCompletes(bundle: Option<Bundle>, leg: AggregatorEvent, txHash: string, ledger: uint32, closedAt: CloseTime,
                     legs: seq<ParsedLeg>)
    requires leg.Leg?
    requires (bundle == None && legs == []) || bundle == Some(Bundle(ledger, closedAt, Some(true), None, legs))
    ensures Extended(bundle, Wire(txHash, ledger, closedAt, leg).event)
            == Ok(Some(Bundle(ledger, closedAt, Some(true), None, legs + [EventLeg(leg)])))
  {
    hide ParseSwapSummary, ParseRoundTripSummary, ParseLeg, Fields, EventLeg;
    LegReadBack(leg);
  }

  /** The invocation a summary event announces, with the legs emitted before it. */
  function Announced(done: AggregatorEvent, legs: seq<ParsedLeg>): Invocation
    requires !done.Leg?
  {
    match done
    case SwapDone(user, tokenIn, tokenOut, totalIn, totalOut, routes) =>
      Invocation("swap", user, Some(tokenIn), Some(tokenOut), None, totalIn, Some(totalOut), routes > 1, legs)
    case RoundTripDone(user, base, bridge, amountIn, baseTotal, _, isSplit) =>
      Invocation("round_trip_swap", user, Some(base), Some(base), Some(bridge), amountIn, Some(baseTotal), isSplit, legs)
  }

  lemma SummaryReadBack(done: AggregatorEvent)
    requires !done.Leg? && Publishable(done)
    ensures done.SwapDone? ==>
              ParseSwapSummary(Fields(done)) == Ok(Summary("swap", done.user, done.tokenIn, done.tokenOut, None, done.totalIn,
                                                           done.totalOut, done.routes > 1))
    ensures done.RoundTripDone? ==>
              ParseRoundTripSummary(Fields(done)) == Ok(Summary("round_trip_swap", done.user, done.base, done.base, Some(done.bridge),
                                                                done.amountIn, done.baseTotal, done.isSplit))
  {
    hide EncodeI128, JoinWords;
    forall a: int128
      ensures IntegerOf(EncodeI128(a)) == Some(a)
    {
      FieldsReadBack(a);
    }
  }

  lemma BundleNext(events: seq<ContractEvent>, e: ContractEvent)
    ensures BundleOf(events + [e]) == if BundleOf(events).Ok? then Extended(BundleOf(events).value, e) else BundleOf(events)
  {
    hide Extended;
    assert (events + [e])[..|events|] == events;
  }

  /** The summary event of a call completes its bundle. */
  lemma SummaryCompletes(bundle: Option<Bundle>, done: AggregatorEvent, txHash: string, ledger: uint32, closedAt: CloseTime,
                         legs: seq<ParsedLeg>)
    requires !done.Leg? && Publishable(done)
    requires (bundle == None && legs == []) || bundle == Some(Bundle(ledger, closedAt, Some(true), None, legs))
    ensures var b := Extended(bundle, Wire(txHash, ledger, closedAt, done).event);
            && b.Ok? && b.value.Some?
            && RecordOf(b.value.value) == Some(Record(ledger, UnixTime(closedAt, ledger), "SUCCESS", Announced(done, legs)))
  {
    hide ParseSwapSummary, ParseRoundTripSummary, ParseLeg, Fields;
    SummaryReadBack(done);
  }

  /** The indexer rebuilds a call from what it published: the summary's numbers, and one leg row for each leg event, in order. */
  lemma RecordOfCall(legs: seq<AggregatorEvent>, done: AggregatorEvent, txHash: string, ledger: uint32, closedAt: CloseTime)
    requires !done.Leg? && Publishable(done) && forall i :: 0 <= i < |legs| ==> legs[i].Leg?
    ensures var b := BundleOf(Published(legs + [done], txHash, ledger, closedAt));
            && b.Ok? && b.value.Some?
            && RecordOf(b.value.value)
               == Some(Record(ledger, UnixTime(closedAt, ledger), "SUCCESS", Announced(done, EventLegs(legs))))
  {
    hide BundleOf, Extended, RecordOf, Announced, EventLegs, Wire;
    BundleOfLegs(legs, txHash, ledger, closedAt);
    NoLegs();
    var last := Wire(txHash, ledger, closedAt, done).event;
    assert Published(legs + [done], txHash, ledger, closedAt) == Published(legs, txHash, ledger, closedAt) + [last];
    BundleNext(Published(legs, txHash, ledger, closedAt), last);
    var bundle := BundleOf(Published(legs, txHash, ledger, closedAt)).value;
    SummaryCompletes(bundle, done, txHash, ledger, closedAt, EventLegs(legs));
  }

  lemma NoLegs()
    ensures EventLegs([]) == []
  {
  }
}
