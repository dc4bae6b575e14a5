// The order escrow as functions of its storage, the ledger and the call.

module EscrowModel {
  import opened AggregatorModel
  import opened Base
  import opened Ledger

  const RATE_SCALE: int128 := 10_000_000
  const MAX_ORDER_LIFETIME: uint32 := 518_400 // 30 days of 17280 ledgers

  datatype OrderStatus = Open | Filled | Cancelled | Expired

  datatype LimitOrder = LimitOrder(owner: Address, tokenIn: Address, tokenOut: Address, remaining: Amount,
                                   limit: Amount, expires: uint32, status: OrderStatus)

  datatype DcaOrder = DcaOrder(owner: Address, tokenIn: Address, tokenOut: Address, remaining: Amount, chunk: Amount,
                               interval: uint32, next: uint32, minRate: Amount, expires: uint32, status: OrderStatus)

  /** Events in the shape the contract publishes them. */
  datatype EscrowEvent =
    | LimitCreated(id: uint64, owner: Address, tokenIn: Address, tokenOut: Address, amountIn: Amount, limit: Amount, expires: uint32)
    | LimitFilled(id: uint64, owner: Address, amountIn: Amount, amountOut: Amount, remaining: Amount)
    | LimitCancelled(id: uint64, owner: Address, refunded: Amount)
    | LimitExpired(id: uint64, owner: Address, refunded: Amount)
    | DcaCreated(id: uint64, owner: Address, tokenIn: Address, tokenOut: Address, amountIn: Amount, chunk: Amount,
                 interval: uint32, start: uint32, minRate: Amount, expires: uint32)
    | DcaFilled(id: uint64, owner: Address, amountIn: Amount, amountOut: Amount, remaining: Amount, next: uint32)
    | DcaCancelled(id: uint64, owner: Address, refunded: Amount)
    | DcaExpired(id: uint64, owner: Address, refunded: Amount)

  /** An event and the ledger it was published in. */
  datatype Entry = Entry(ledger: uint32, event: EscrowEvent)

  datatype Book = Book(limits: map<uint64, LimitOrder>, dcas: map<uint64, DcaOrder>, nextLimit: uint64, nextDca: uint64,
                       log: seq<Entry>)

  function Publish(b: Book, now: uint32, e: EscrowEvent): Book {
    b.(log := b.log + [Entry(now, e)])
  }

  /** `required_min_out`: the floored limit output, or the largest amount when the product overflows. */
  function RequiredMinOut(amountIn: int128, rate: int128): int128 {
    var product := CheckedMul(amountIn, rate, Trap);
    if product.Ok? then TruncatingDiv(product.value, RATE_SCALE) else I128_MAX
  }

  /** The overflow-checked sum of the route amounts from route i on. */
  function RoutedFrom(routes: seq<SubRoute>, i: nat, acc: int128): Result<int128>
    requires i <= |routes|
    decreases |routes| - i
  {
    if i == |routes| then Ok(acc)
    else
      var acc' :- CheckedAdd(acc, routes[i].amountIn, InEscrow(EscrowOverflow));
      RoutedFrom(routes, i + 1, acc')
  }

  function SaturatingLifetime(now: uint32): uint32 {
    SaturatingAdd32(now, MAX_ORDER_LIFETIME)
  }

  // ----- Limit orders -----

  function CheckLimit(now: uint32, tokenIn: Address, tokenOut: Address, amountIn: int128, limit: int128, expires: uint32):
    Option<EscrowError>
  {
    if amountIn <= 0 then Some(AmountNotPositive)
    else if limit <= 0 then Some(LimitNotPositive)
    else if tokenIn == tokenOut then Some(SameToken)
    else if expires <= now then Some(ExpirationInPast)
    else if expires > SaturatingLifetime(now) then Some(ExpirationTooFar)
    else None
  }

  function CreateLimit(c: Chain, b: Book, auth: set<Address>, now: uint32, owner: Address, tokenIn: Address,
                       tokenOut: Address, amountIn: int128, limit: int128, expires: uint32): Result<(Chain, Book)>
  {
    if owner !in auth then Err(Trap)
    else
      var problem := CheckLimit(now, tokenIn, tokenOut, amountIn, limit, expires);
      if problem.Some? then Err(InEscrow(problem.value))
      else
        var id := b.nextLimit;
        var c1 :- Transfer(c, tokenIn, owner, Escrow, amountIn);
        if id + 1 > U64_MAX then Err(InEscrow(EscrowOverflow))
        else
          var order := LimitOrder(owner, tokenIn, tokenOut, amountIn, limit, expires, Open);
          var b1 := b.(limits := b.limits[id := order], nextLimit := id + 1);
          Ok((c1, Publish(b1, now, LimitCreated(id, owner, tokenIn, tokenOut, amountIn, limit, expires))))
  }

  /** The checks of `fill` before the swap. */
  function CheckFill(b: Book, now: uint32, id: uint64, amountIn: int128, routes: seq<SubRoute>, minOut: int128): Result<LimitOrder> {
    if id !in b.limits then Err(InEscrow(OrderNotFound))
    else
      var order := b.limits[id];
      if !order.status.Open? then Err(InEscrow(OrderNotOpen))
      else if now >= order.expires then Err(InEscrow(OrderExpired))
      else if amountIn <= 0 then Err(InEscrow(AmountNotPositive))
      else if amountIn > order.remaining then Err(InEscrow(AmountExceedsRemaining))
      else
        var routed :- RoutedFrom(routes, 0, 0);
        if routed != amountIn then Err(InEscrow(RouteAmountMismatch))
        else if minOut < RequiredMinOut(amountIn, order.limit) then Err(InEscrow(MinimumOutBelowLimit))
        else Ok(order)
  }

  /** The swap of a fill with the escrow as user, and the payment of its proceeds to the owner. */
  function SwapForOwner(c: Chain, venues: set<(uint32, Address)>, owner: Address, tokenIn: Address, tokenOut: Address,
                        routes: seq<SubRoute>, minOut: int128, replies: seq<Reply>): Result<(Chain, Amount)>
  {
    var (c1, out) :- SwapRestricted(c, venues, {Escrow}, Escrow, tokenIn, tokenOut, routes, minOut, replies);
    var c2 :- Transfer(c1, tokenOut, Escrow, owner, out);
    Ok((c2, out))
  }

  function Fill(c: Chain, b: Book, venues: set<(uint32, Address)>, now: uint32, id: uint64, amountIn: int128,
                routes: seq<SubRoute>, minOut: int128, replies: seq<Reply>): Result<(Chain, Book)>
  {
    var order :- CheckFill(b, now, id, amountIn, routes, minOut);
    var (c1, out) :- SwapForOwner(c, venues, order.owner, order.tokenIn, order.tokenOut, routes, minOut, replies);
    var remaining := order.remaining - amountIn;
    var order' := order.(remaining := remaining, status := if remaining == 0 then Filled else Open);
    Ok((c1, Publish(b.(limits := b.limits[id := order']), now, LimitFilled(id, order.owner, amountIn, out, remaining))))
  }

  /** Handing the remainder back and closing the order, for `cancel` and `reclaim_expired`. */
  function CloseLimit(c: Chain, b: Book, now: uint32, id: uint64, status: OrderStatus): Result<(Chain, Book)>
    requires id in b.limits
  {
    var order := b.limits[id];
    var c1 :- Transfer(c, order.tokenIn, Escrow, order.owner, order.remaining);
    var b1 := b.(limits := b.limits[id := order.(remaining := 0, status := status)]);
    Ok((c1, Publish(b1, now, if status.Cancelled? then LimitCancelled(id, order.owner, order.remaining)
                             else LimitExpired(id, order.owner, order.remaining))))
  }

  function Cancel(c: Chain, b: Book, auth: set<Address>, now: uint32, id: uint64): Result<(Chain, Book)> {
    if id !in b.limits then Err(InEscrow(OrderNotFound))
    else if b.limits[id].owner !in auth then Err(Trap)
    else if !b.limits[id].status.Open? then Err(InEscrow(OrderNotOpen))
    else CloseLimit(c, b, now, id, Cancelled)
  }

  function Reclaim(c: Chain, b: Book, now: uint32, id: uint64): Result<(Chain, Book)> {
    if id !in b.limits then Err(InEscrow(OrderNotFound))
    else if !b.limits[id].status.Open? then Err(InEscrow(OrderNotOpen))
    else if now <= b.limits[id].expires then Err(InEscrow(OrderNotExpired))
    else CloseLimit(c, b, now, id, Expired)
  }

  // ----- DCA orders -----

  function CheckDca(now: uint32, tokenIn: Address, tokenOut: Address, amountIn: int128, chunk: int128, interval: uint32,
                    start: uint32, minRate: int128, expires: uint32): Option<EscrowError>
  {
    if amountIn <= 0 then Some(AmountNotPositive)
    else if chunk <= 0 || chunk > amountIn then Some(InvalidChunk)
    else if interval == 0 then Some(InvalidInterval)
    else if start < now then Some(StartLedgerInPast)
    else if minRate < 0 then Some(InvalidMinimumRate)
    else if tokenIn == tokenOut then Some(SameToken)
    else if expires <= start then Some(ExpirationInPast)
    else if expires > SaturatingLifetime(now) then Some(ExpirationTooFar)
    else None
  }

  function CreateDca(c: Chain, b: Book, auth: set<Address>, now: uint32, owner: Address, tokenIn: Address,
                     tokenOut: Address, amountIn: int128, chunk: int128, interval: uint32, start: uint32, minRate: int128,
                     expires: uint32): Result<(Chain, Book)>
  {
    if owner !in auth then Err(Trap)
    else
      var problem := CheckDca(now, tokenIn, tokenOut, amountIn, chunk, interval, start, minRate, expires);
      if problem.Some? then Err(InEscrow(problem.value))
      else
        var id := b.nextDca;
        var c1 :- Transfer(c, tokenIn, owner, Escrow, amountIn);
        if id + 1 > U64_MAX then Err(InEscrow(EscrowOverflow))
        else
          var order := DcaOrder(owner, tokenIn, tokenOut, amountIn, chunk, interval, start, minRate, expires, Open);
          var b1 := b.(dcas := b.dcas[id := order], nextDca := id + 1);
          Ok((c1, Publish(b1, now, DcaCreated(id, owner, tokenIn, tokenOut, amountIn, chunk, interval, start, minRate, expires))))
  }

  /** What the next fill of a DCA order spends. */
  function ChunkDue(order: DcaOrder): Amount {
    if order.remaining < order.chunk then order.remaining else order.chunk
  }

  function CheckFillDca(b: Book, now: uint32, id: uint64, routes: seq<SubRoute>, minOut: int128): Result<DcaOrder> {
    if id !in b.dcas then Err(InEscrow(OrderNotFound))
    else
      var order := b.dcas[id];
      if !order.status.Open? then Err(InEscrow(OrderNotOpen))
      else if now >= order.expires then Err(InEscrow(OrderExpired))
      else if now < order.next then Err(InEscrow(ChunkNotDue))
      else
        var routed :- RoutedFrom(routes, 0, 0);
        if routed != ChunkDue(order) then Err(InEscrow(RouteAmountMismatch))
        else if order.minRate > 0 && minOut < RequiredMinOut(ChunkDue(order), order.minRate) then
          Err(InEscrow(MinimumOutBelowLimit))
        else if order.minRate <= 0 && minOut <= 0 then Err(InEscrow(AmountNotPositive))
        else Ok(order)
  }

  function FillDca(c: Chain, b: Book, venues: set<(uint32, Address)>, now: uint32, id: uint64, routes: seq<SubRoute>,
                   minOut: int128, replies: seq<Reply>): Result<(Chain, Book)>
  {
    var order :- CheckFillDca(b, now, id, routes, minOut);
    var (c1, out) :- SwapForOwner(c, venues, order.owner, order.tokenIn, order.tokenOut, routes, minOut, replies);
    var amountIn := ChunkDue(order);
    var remaining := order.remaining - amountIn;
    var order' := if remaining == 0 then order.(remaining := remaining, status := Filled)
                  else order.(remaining := remaining, next := SaturatingAdd32(now, order.interval));
    Ok((c1, Publish(b.(dcas := b.dcas[id := order']), now,
                    DcaFilled(id, order.owner, amountIn, out, remaining, order'.next))))
  }

  function CloseDca(c: Chain, b: Book, now: uint32, id: uint64, status: OrderStatus): Result<(Chain, Book)>
    requires id in b.dcas
  {
    var order := b.dcas[id];
    var c1 :- Transfer(c, order.tokenIn, Escrow, order.owner, order.remaining);
    var b1 := b.(dcas := b.dcas[id := order.(remaining := 0, status := status)]);
    Ok((c1, Publish(b1, now, if status.Cancelled? then DcaCancelled(id, order.owner, order.remaining)
                             else DcaExpired(id, order.owner, order.remaining))))
  }

  function CancelDca(c: Chain, b: Book, auth: set<Address>, now: uint32, id: uint64): Result<(Chain, Book)> {
    if id !in b.dcas then Err(InEscrow(OrderNotFound))
    else if b.dcas[id].owner !in auth then Err(Trap)
    else if !b.dcas[id].status.Open? then Err(InEscrow(OrderNotOpen))
    else CloseDca(c, b, now, id, Cancelled)
  }

  function ReclaimDca(c: Chain, b: Book, now: uint32, id: uint64): Result<(Chain, Book)> {
    if id !in b.dcas then Err(InEscrow(OrderNotFound))
    else if !b.dcas[id].status.Open? then Err(InEscrow(OrderNotOpen))
    else if now <= b.dcas[id].expires then Err(InEscrow(OrderNotExpired))
    else CloseDca(c, b, now, id, Expired)
  }
}
