// Escrow events on the wire, and the indexer's parser for them.

module OrderEvents {
  import opened Base
  import opened EscrowModel
  import opened ScVal
  import Decimal

  /** The close time of a ledger as the RPC sent it: none, text that does not read as a time, or a time. */
  datatype CloseTime = NoTime | Unreadable | At(time: int64)

  /** `ledger_closed_at_to_unix`: the close time, or an estimate from the ledger number. */
  function UnixTime(closedAt: CloseTime, ledger: uint32): int64 {
    if closedAt.At? then closedAt.time else ledger * 5
  }

  /** A contract event as the RPC returns it, with its values decoded. */
  datatype ContractEvent = ContractEvent(eventType: string, ledger: uint32, contractId: Address, topic: Option<seq<ScVal>>,
                                         value: Option<ScVal>, inSuccessfulCall: Option<bool>, closedAt: CloseTime)

  datatype OrderTerms =
    | LimitTerms(owner: Address, tokenIn: Address, tokenOut: Address, amountIn: string, limit: string, expires: uint32)
    | DcaTerms(owner: Address, tokenIn: Address, tokenOut: Address, amountIn: string, chunk: string, interval: uint32,
               minRate: string, expires: uint32)

  datatype Change =
    | Created(terms: OrderTerms, due: Option<uint32>)
    | FilledTo(remaining: string)
    | DcaFilledTo(remaining: string, next: uint32)
    | CancelledNow(dca: bool)
    | ExpiredNow(dca: bool)

  /** A creation announces a first due date exactly when it is of a DCA order. */
  predicate WellFormed(c: Change) {
    c.Created? ==> (c.due.Some? <==> c.terms.DcaTerms?)
  }

  datatype ParsedEvent = ParsedEvent(contract: Address, id: uint64, change: Change, ledger: uint32, at: int64)

  /** Which of the two order tables a change is for. */
  predicate ForDca(c: Change) {
    match c
    case Created(terms, _) => terms.DcaTerms?
    case FilledTo(_) => false
    case DcaFilledTo(_, _) => true
    case CancelledNow(dca) => dca
    case ExpiredNow(dca) => dca
  }

  datatype Outcome = Parsed(event: ParsedEvent) | Skipped | Malformed

  // ----- What the contract puts on the wire -----

  function Kind(e: EscrowEvent): string {
    match e
    case LimitCreated(_, _, _, _, _, _, _) => "order_created"
    case LimitFilled(_, _, _, _, _) => "order_filled"
    case LimitCancelled(_, _, _) => "order_cancelled"
    case LimitExpired(_, _, _) => "order_expired"
    case DcaCreated(_, _, _, _, _, _, _, _, _, _) => "dca_created"
    case DcaFilled(_, _, _, _, _, _) => "dca_filled"
    case DcaCancelled(_, _, _) => "dca_cancelled"
    case DcaExpired(_, _, _) => "dca_expired"
  }

  function Data(e: EscrowEvent): seq<ScVal> {
    match e
    case LimitCreated(_, owner, tokenIn, tokenOut, amountIn, limit, expires) =>
      [ScAddress(owner), ScAddress(tokenIn), ScAddress(tokenOut), EncodeI128(amountIn), EncodeI128(limit), ScU32(expires)]
    case LimitFilled(_, owner, amountIn, amountOut, remaining) =>
      [ScAddress(owner), EncodeI128(amountIn), EncodeI128(amountOut), EncodeI128(remaining)]
    case LimitCancelled(_, owner, refunded) => [ScAddress(owner), EncodeI128(refunded)]
    case LimitExpired(_, owner, refunded) => [ScAddress(owner), EncodeI128(refunded)]
    case DcaCreated(_, owner, tokenIn, tokenOut, amountIn, chunk, interval, start, minRate, expires) =>
      [ScAddress(owner), ScAddress(tokenIn), ScAddress(tokenOut), EncodeI128(amountIn), EncodeI128(chunk), ScU32(interval),
       ScU32(start), EncodeI128(minRate), ScU32(expires)]
    case DcaFilled(_, owner, amountIn, amountOut, remaining, next) =>
      [ScAddress(owner), EncodeI128(amountIn), EncodeI128(amountOut), EncodeI128(remaining), ScU32(next)]
    case DcaCancelled(_, owner, refunded) => [ScAddress(owner), EncodeI128(refunded)]
    case DcaExpired(_, owner, refunded) => [ScAddress(owner), EncodeI128(refunded)]
  }

  function OnWire(contract: Address, e: Entry, closedAt: CloseTime): ContractEvent {
    ContractEvent("contract", e.ledger, contract, Some([ScSymbol(Kind(e.event)), ScU64(e.event.id)]),
                  Some(ScVec(Some(Data(e.event)))), Some(true), closedAt)
  }

  // ----- The parser -----

  function AddressOf(v: ScVal): Option<Address> {
    if v.ScAddress? then Some(v.address) else None
  }

  function IntegerOf(v: ScVal): Option<int128> {
    match v
    case ScI128(hi, lo) => Some(JoinWords(hi, lo))
    case ScU64(x) => Some(x)
    case ScU32(x) => Some(x)
    case _ => None
  }

  function SequenceOf(v: ScVal): Option<uint32> {
    match v
    case ScU32(x) => Some(x)
    case ScU64(x) => if x <= U32_MAX then Some(x) else None
    case _ => None
  }

  function Id(v: ScVal): Option<uint64> {
    match v
    case ScU64(x) => Some(x)
    case ScU32(x) => Some(x)
    case _ => None
  }

  /** Whether the kind is known, and the change an event of this kind announces (none when its fields do not read). */
  function ReadChange(kind: string, f: seq<ScVal>): (r: (bool, Option<Change>))
    ensures r.1.Some? ==> WellFormed(r.1.value)
  {
    if kind == "order_created" then (true,
      if |f| < 6 then None
      else
        var owner, tokenIn, tokenOut, amountIn, limit, expires :=
          AddressOf(f[0]), AddressOf(f[1]), AddressOf(f[2]), IntegerOf(f[3]), IntegerOf(f[4]), SequenceOf(f[5]);
        if owner.Some? && tokenIn.Some? && tokenOut.Some? && amountIn.Some? && limit.Some? && expires.Some? then
          Some(Created(LimitTerms(owner.value, tokenIn.value, tokenOut.value, Decimal.ToString(amountIn.value),
                                  Decimal.ToString(limit.value), expires.value), None))
        else None)
    else if kind == "order_filled" then (true,
      if |f| < 4 || IntegerOf(f[3]).None? then None else Some(FilledTo(Decimal.ToString(IntegerOf(f[3]).value))))
    else if kind == "order_cancelled" then (true, if |f| < 2 then None else Some(CancelledNow(false)))
    else if kind == "order_expired" then (true, if |f| < 2 then None else Some(ExpiredNow(false)))
    else if kind == "dca_created" then (true,
      if |f| < 9 then None
      else
        var owner, tokenIn, tokenOut, amountIn, chunk :=
          AddressOf(f[0]), AddressOf(f[1]), AddressOf(f[2]), IntegerOf(f[3]), IntegerOf(f[4]);
        var interval, start, minRate, expires := SequenceOf(f[5]), SequenceOf(f[6]), IntegerOf(f[7]), SequenceOf(f[8]);
        if owner.Some? && tokenIn.Some? && tokenOut.Some? && amountIn.Some? && chunk.Some? && interval.Some? && start.Some?
           && minRate.Some? && expires.Some? then
          Some(Created(DcaTerms(owner.value, tokenIn.value, tokenOut.value, Decimal.ToString(amountIn.value),
                                Decimal.ToString(chunk.value), interval.value, Decimal.ToString(minRate.value),
                                expires.value), start))
        else None)
    else if kind == "dca_filled" then (true,
      if |f| < 5 || IntegerOf(f[3]).None? || SequenceOf(f[4]).None? then None
      else Some(DcaFilledTo(Decimal.ToString(IntegerOf(f[3]).value), SequenceOf(f[4]).value)))
    else if kind == "dca_cancelled" then (true, Some(CancelledNow(true)))
    else if kind == "dca_expired" then (true, Some(ExpiredNow(true)))
    else (false, None)
  }

  /** `parse_escrow_order_event`. */
  function Parse(e: ContractEvent): (r: Outcome)
    ensures r.Parsed? ==> WellFormed(r.event.change)
  {
    if e.eventType != "contract" || e.inSuccessfulCall == Some(false) then Skipped
    else if e.topic.None? || |e.topic.value| < 2 || !e.topic.value[0].ScSymbol? || Id(e.topic.value[1]).None? then Skipped
    else if e.value.None? || !e.value.value.ScVec? || e.value.value.items.None? then Malformed
    else
      var kind := e.topic.value[0].symbol;
      var (known, change) := ReadChange(kind, e.value.value.items.value);
      if !known then Skipped
      else if change.None? then Malformed
      else Parsed(ParsedEvent(e.contractId, Id(e.topic.value[1]).value, change.value, e.ledger, UnixTime(e.closedAt, e.ledger)))
  }

  // ----- The round trip -----

  function ChangeOf(e: EscrowEvent): Change {
    match e
    case LimitCreated(_, owner, tokenIn, tokenOut, amountIn, limit, expires) =>
      Created(LimitTerms(owner, tokenIn, tokenOut, Decimal.ToString(amountIn), Decimal.ToString(limit), expires), None)
    case LimitFilled(_, _, _, _, remaining) => FilledTo(Decimal.ToString(remaining))
    case LimitCancelled(_, _, _) => CancelledNow(false)
    case LimitExpired(_, _, _) => ExpiredNow(false)
    case DcaCreated(_, owner, tokenIn, tokenOut, amountIn, chunk, interval, start, minRate, expires) =>
      Created(DcaTerms(owner, tokenIn, tokenOut, Decimal.ToString(amountIn), Decimal.ToString(chunk), interval,
                       Decimal.ToString(minRate), expires), Some(start))
    case DcaFilled(_, _, _, _, remaining, next) => DcaFilledTo(Decimal.ToString(remaining), next)
    case DcaCancelled(_, _, _) => CancelledNow(true)
    case DcaExpired(_, _, _) => ExpiredNow(true)
  }

  predicate IsDca(e: EscrowEvent) {
    e.DcaCreated? || e.DcaFilled? || e.DcaCancelled? || e.DcaExpired?
  }

  lemma FieldsReadBack(a: int128)
    ensures IntegerOf(EncodeI128(a)) == Some(a)
  {
    I128RoundTrip(a, 0, 0);
  }

  lemma TermsReadBack(e: EscrowEvent)
    requires e.LimitCreated? || e.DcaCreated?
    ensures ReadChange(Kind(e), Data(e)) == (true, Some(ChangeOf(e))) && ForDca(ChangeOf(e)) == IsDca(e)
  {
    hide Decimal.ToString, EncodeI128, JoinWords;
    forall a: Amount {
      FieldsReadBack(a);
    }
  }

  lemma UpdateReadBack(e: EscrowEvent)
    requires !e.LimitCreated? && !e.DcaCreated?
    ensures ReadChange(Kind(e), Data(e)) == (true, Some(ChangeOf(e))) && ForDca(ChangeOf(e)) == IsDca(e)
  {
    hide Decimal.ToString, EncodeI128, JoinWords;
    forall a: Amount {
      FieldsReadBack(a);
    }
  }

  lemma ChangeReadBack(e: EscrowEvent)
    ensures ReadChange(Kind(e), Data(e)) == (true, Some(ChangeOf(e)))
    ensures ForDca(ChangeOf(e)) == IsDca(e)
  {
    if e.LimitCreated? || e.DcaCreated? {
      TermsReadBack(e);
    } else {
      UpdateReadBack(e);
    }
  }

  /** Every event the escrow publishes parses, to the order, the change and the time it announced. */
  lemma ParseOfOnWire(contract: Address, e: Entry, closedAt: CloseTime)
    ensures Parse(OnWire(contract, e, closedAt))
            == Parsed(ParsedEvent(contract, e.event.id, ChangeOf(e.event), e.ledger, UnixTime(closedAt, e.ledger)))
  {
    hide Kind, Data, ReadChange, ChangeOf;
    ChangeReadBack(e.event);
  }
}
