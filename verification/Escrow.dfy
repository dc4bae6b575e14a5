// The order escrow contract: it reads an order, moves tokens, updates the order and stores it.

module EscrowContract {
  import opened AggregatorModel
  import opened Base
  import opened EscrowModel
  import opened Ledger
  import AggregatorContract

  class EscrowContract {
    const host: Host
    const aggregator: AggregatorContract.AggregatorContract
    var limits: map<uint64, LimitOrder>
    var dcas: map<uint64, DcaOrder>
    var nextLimit: uint64
    var nextDca: uint64
    var log: seq<Entry>

    constructor (aggregator: AggregatorContract.AggregatorContract)
      ensures this.aggregator == aggregator && host == aggregator.host
      ensures State() == Book(map[], map[], 0, 0, [])
    {
      this.aggregator, this.host := aggregator, aggregator.host;
      limits, dcas, nextLimit, nextDca, log := map[], map[], 0, 0, [];
    }

    function State(): Book
      reads this
    {
      Book(limits, dcas, nextLimit, nextDca, log)
    }

    /** The state after a call that the model says yields `spec`. */
    twostate predicate Follows(spec: Result<(Chain, Book)>, ok: bool)
      reads this, host
    {
      && ok == spec.Ok?
      && (if ok then spec.value == (host.State(), State()) else host.State() == old(host.State()) && State() == old(State()))
    }

    method CheckNewLimit(now: uint32, tokenIn: Address, tokenOut: Address, amountIn: int128, limit: int128, expires: uint32)
      returns (problem: Option<EscrowError>)
      ensures problem == CheckLimit(now, tokenIn, tokenOut, amountIn, limit, expires)
      ensures problem.None? ==> amountIn > 0 && limit > 0
    {
      if amountIn <= 0 {
        return Some(AmountNotPositive);
      }
      if limit <= 0 {
        return Some(LimitNotPositive);
      }
      if tokenIn == tokenOut {
        return Some(SameToken);
      }
      if expires <= now {
        return Some(ExpirationInPast);
      }
      if expires > SaturatingLifetime(now) {
        return Some(ExpirationTooFar);
      }
      return None;
    }

    method CreateLimit(auth: set<Address>, now: uint32, owner: Address, tokenIn: Address, tokenOut: Address,
                       amountIn: int128, limit: int128, expires: uint32) returns (r: Result<uint64>)
      modifies this, host
      ensures var spec := EscrowModel.CreateLimit(old(host.State()), old(State()), auth, now, owner, tokenIn, tokenOut,
                                                  amountIn, limit, expires);
              Follows(spec, r.Ok?) && (if r.Ok? then r.value == old(nextLimit) else r.error == spec.error)
    {
      hide Transfer, CheckLimit;
      if owner !in auth {
        return Err(Trap);
      }
      var problem := CheckNewLimit(now, tokenIn, tokenOut, amountIn, limit, expires);
      if problem.Some? {
        return Err(InEscrow(problem.value));
      }
      var before := host.State();
      var id := nextLimit;
      var paid := host.Move(tokenIn, owner, Escrow, amountIn);
      if !paid {
        return Err(Trap);
      }
      if id + 1 > U64_MAX {
        host.Restore(before);
        return Err(InEscrow(EscrowOverflow));
      }
      var order := LimitOrder(owner, tokenIn, tokenOut, amountIn, limit, expires, Open);
      limits := limits[id := order];
      nextLimit := id + 1;
      log := log + [Entry(now, LimitCreated(id, owner, tokenIn, tokenOut, amountIn, limit, expires))];
      return Ok(id);
    }

    method SumRoutes(routes: seq<SubRoute>) returns (r: Result<int128>)
      ensures r == RoutedFrom(routes, 0, 0)
    {
      var routed: int128 := 0;
      for i := 0 to |routes|
        invariant RoutedFrom(routes, 0, 0) == RoutedFrom(routes, i, routed)
      {
        var sum := CheckedAdd(routed, routes[i].amountIn, InEscrow(EscrowOverflow));
        if sum.Err? {
          return sum;
        }
        routed := sum.value;
      }
      return Ok(routed);
    }

    /** The swap with the escrow as user and the transfer of its proceeds, undone together. */
    method PaySwapProceeds(owner: Address, tokenIn: Address, tokenOut: Address, routes: seq<SubRoute>, minOut: int128,
                           replies: seq<Reply>) returns (r: Result<Amount>)
      requires aggregator.host == host
      modifies host
      ensures var spec := SwapForOwner(old(host.State()), aggregator.venues, owner, tokenIn, tokenOut, routes, minOut, replies);
              && r.Ok? == spec.Ok?
              && (if r.Ok? then spec.value == (host.State(), r.value)
                  else r.error == spec.error && host.State() == old(host.State()))
    {
      hide AggregatorModel.SwapRestricted, Transfer;
      var before := host.State();
      var out := aggregator.SwapRestricted({Escrow}, Escrow, tokenIn, tokenOut, routes, minOut, replies);
      if out.Err? {
        return Err(out.error);
      }
      var paid := host.Move(tokenOut, Escrow, owner, out.value);
      if !paid {
        host.Restore(before);
        return Err(Trap);
      }
      return Ok(out.value);
    }

    method Fill(now: uint32, id: uint64, amountIn: int128, routes: seq<SubRoute>, minOut: int128, replies: seq<Reply>)
      returns (r: Result<int128>)
      requires aggregator.host == host
      modifies this, host
      ensures var spec := EscrowModel.Fill(old(host.State()), old(State()), aggregator.venues, now, id, amountIn, routes,
                                           minOut, replies);
              Follows(spec, r.Ok?) && (r.Err? ==> r.error == spec.error)
      ensures r.Ok? ==> |log| == old(|log|) + 1 && log[old(|log|)].event.LimitFilled? && log[old(|log|)].event.amountOut == r.value
    {
      hide SwapForOwner, RoutedFrom;
      if id !in limits {
        return Err(InEscrow(OrderNotFound));
      }
      var order := limits[id];
      if !order.status.Open? {
        return Err(InEscrow(OrderNotOpen));
      }
      if now >= order.expires {
        return Err(InEscrow(OrderExpired));
      }
      if amountIn <= 0 {
        return Err(InEscrow(AmountNotPositive));
      }
      if amountIn > order.remaining {
        return Err(InEscrow(AmountExceedsRemaining));
      }
      var routed := SumRoutes(routes);
      if routed.Err? {
        return routed;
      }
      if routed.value != amountIn {
        return Err(InEscrow(RouteAmountMismatch));
      }
      if minOut < RequiredMinOut(amountIn, order.limit) {
        return Err(InEscrow(MinimumOutBelowLimit));
      }
      var out := PaySwapProceeds(order.owner, order.tokenIn, order.tokenOut, routes, minOut, replies);
      if out.Err? {
        return Err(out.error);
      }
      order := order.(remaining := order.remaining - amountIn);
      if order.remaining == 0 {
        order := order.(status := Filled);
      }
      limits := limits[id := order];
      log := log + [Entry(now, LimitFilled(id, order.owner, amountIn, out.value, order.remaining))];
      return Ok(out.value);
    }

    method Cancel(auth: set<Address>, now: uint32, id: uint64) returns (r: Result<()>)
      modifies this, host
      ensures var spec := EscrowModel.Cancel(old(host.State()), old(State()), auth, now, id);
              Follows(spec, r.Ok?) && (r.Err? ==> r.error == spec.error)
    {
      hide Transfer;
      if id !in limits {
        return Err(InEscrow(OrderNotFound));
      }
      var order := limits[id];
      if order.owner !in auth {
        return Err(Trap);
      }
      if !order.status.Open? {
        return Err(InEscrow(OrderNotOpen));
      }
      var refunded := order.remaining;
      var paid := host.Move(order.tokenIn, Escrow, order.owner, refunded);
      if !paid {
        return Err(Trap);
      }
      order := order.(remaining := 0, status := Cancelled);
      limits := limits[id := order];
      log := log + [Entry(now, LimitCancelled(id, order.owner, refunded))];
      return Ok(());
    }

    method ReclaimExpired(now: uint32, id: uint64) returns (r: Result<()>)
      modifies this, host
      ensures var spec := Reclaim(old(host.State()), old(State()), now, id);
              Follows(spec, r.Ok?) && (r.Err? ==> r.error == spec.error)
    {
      hide Transfer;
      if id !in limits {
        return Err(InEscrow(OrderNotFound));
      }
      var order := limits[id];
      if !order.status.Open? {
        return Err(InEscrow(OrderNotOpen));
      }
      if now <= order.expires {
        return Err(InEscrow(OrderNotExpired));
      }
      var refunded := order.remaining;
      var paid := host.Move(order.tokenIn, Escrow, order.owner, refunded);
      if !paid {
        return Err(Trap);
      }
      order := order.(remaining := 0, status := Expired);
      limits := limits[id := order];
      log := log + [Entry(now, LimitExpired(id, order.owner, refunded))];
      return Ok(());
    }

    method CheckNewDca(now: uint32, tokenIn: Address, tokenOut: Address, amountIn: int128, chunk: int128, interval: uint32,
                       start: uint32, minRate: int128, expires: uint32) returns (problem: Option<EscrowError>)
      ensures problem == CheckDca(now, tokenIn, tokenOut, amountIn, chunk, interval, start, minRate, expires)
      ensures problem.None? ==> 0 < chunk <= amountIn && minRate >= 0
    {
      if amountIn <= 0 {
        return Some(AmountNotPositive);
      }
      if chunk <= 0 || chunk > amountIn {
        return Some(InvalidChunk);
      }
      if interval == 0 {
        return Some(InvalidInterval);
      }
      if start < now {
        return Some(StartLedgerInPast);
      }
      if minRate < 0 {
        return Some(InvalidMinimumRate);
      }
      if tokenIn == tokenOut {
        return Some(SameToken);
      }
      if expires <= start {
        return Some(ExpirationInPast);
      }
      if expires > SaturatingLifetime(now) {
        return Some(ExpirationTooFar);
      }
      return None;
    }

    method CreateDca(auth: set<Address>, now: uint32, owner: Address, tokenIn: Address, tokenOut: Address, amountIn: int128,
                     chunk: int128, interval: uint32, start: uint32, minRate: int128, expires: uint32) returns (r: Result<uint64>)
      modifies this, host
      ensures var spec := EscrowModel.CreateDca(old(host.State()), old(State()), auth, now, owner, tokenIn, tokenOut, amountIn,
                                                chunk, interval, start, minRate, expires);
              Follows(spec, r.Ok?) && (if r.Ok? then r.value == old(nextDca) else r.error == spec.error)
    {
      hide Transfer, CheckDca;
      if owner !in auth {
        return Err(Trap);
      }
      var problem := CheckNewDca(now, tokenIn, tokenOut, amountIn, chunk, interval, start, minRate, expires);
      if problem.Some? {
        return Err(InEscrow(problem.value));
      }
      var before := host.State();
      var id := nextDca;
      var paid := host.Move(tokenIn, owner, Escrow, amountIn);
      if !paid {
        return Err(Trap);
      }
      if id + 1 > U64_MAX {
        host.Restore(before);
        return Err(InEscrow(EscrowOverflow));
      }
      var order := DcaOrder(owner, tokenIn, tokenOut, amountIn, chunk, interval, start, minRate, expires, Open);
      dcas := dcas[id := order];
      nextDca := id + 1;
      log := log + [Entry(now, DcaCreated(id, owner, tokenIn, tokenOut, amountIn, chunk, interval, start, minRate, expires))];
      return Ok(id);
    }

    method FillDca(now: uint32, id: uint64, routes: seq<SubRoute>, minOut: int128, replies: seq<Reply>)
      returns (r: Result<int128>)
      requires aggregator.host == host
      modifies this, host
      ensures var spec := EscrowModel.FillDca(old(host.State()), old(State()), aggregator.venues, now, id, routes, minOut, replies);
              Follows(spec, r.Ok?) && (r.Err? ==> r.error == spec.error)
      ensures r.Ok? ==> |log| == old(|log|) + 1 && log[old(|log|)].event.DcaFilled? && log[old(|log|)].event.amountOut == r.value
    {
      hide SwapForOwner, RoutedFrom;
      if id !in dcas {
        return Err(InEscrow(OrderNotFound));
      }
      var order := dcas[id];
      if !order.status.Open? {
        return Err(InEscrow(OrderNotOpen));
      }
      if now >= order.expires {
        return Err(InEscrow(OrderExpired));
      }
      if now < order.next {
        return Err(InEscrow(ChunkNotDue));
      }
      var amountIn := if order.remaining < order.chunk then order.remaining else order.chunk;
      var routed := SumRoutes(routes);
      if routed.Err? {
        return routed;
      }
      if routed.value != amountIn {
        return Err(InEscrow(RouteAmountMismatch));
      }
      if order.minRate > 0 {
        if minOut < RequiredMinOut(amountIn, order.minRate) {
          return Err(InEscrow(MinimumOutBelowLimit));
        }
      } else if minOut <= 0 {
        return Err(InEscrow(AmountNotPositive));
      }
      var out := PaySwapProceeds(order.owner, order.tokenIn, order.tokenOut, routes, minOut, replies);
      if out.Err? {
        return Err(out.error);
      }
      order := order.(remaining := order.remaining - amountIn);
      if order.remaining == 0 {
        order := order.(status := Filled);
      } else {
        order := order.(next := SaturatingAdd32(now, order.interval));
      }
      dcas := dcas[id := order];
      log := log + [Entry(now, DcaFilled(id, order.owner, amountIn, out.value, order.remaining, order.next))];
      return Ok(out.value);
    }

    method CancelDca(auth: set<Address>, now: uint32, id: uint64) returns (r: Result<()>)
      modifies this, host
      ensures var spec := EscrowModel.CancelDca(old(host.State()), old(State()), auth, now, id);
              Follows(spec, r.Ok?) && (r.Err? ==> r.error == spec.error)
    {
      hide Transfer;
      if id !in dcas {
        return Err(InEscrow(OrderNotFound));
      }
      var order := dcas[id];
      if order.owner !in auth {
        return Err(Trap);
      }
      if !order.status.Open? {
        return Err(InEscrow(OrderNotOpen));
      }
      var refunded := order.remaining;
      var paid := host.Move(order.tokenIn, Escrow, order.owner, refunded);
      if !paid {
        return Err(Trap);
      }
      order := order.(remaining := 0, status := Cancelled);
      dcas := dcas[id := order];
      log := log + [Entry(now, DcaCancelled(id, order.owner, refunded))];
      return Ok(());
    }

    method ReclaimExpiredDca(now: uint32, id: uint64) returns (r: Result<()>)
      modifies this, host
      ensures var spec := ReclaimDca(old(host.State()), old(State()), now, id);
              Follows(spec, r.Ok?) && (r.Err? ==> r.error == spec.error)
    {
      hide Transfer;
      if id !in dcas {
        return Err(InEscrow(OrderNotFound));
      }
      var order := dcas[id];
      if !order.status.Open? {
        return Err(InEscrow(OrderNotOpen));
      }
      if now <= order.expires {
        return Err(InEscrow(OrderNotExpired));
      }
      var refunded := order.remaining;
      var paid := host.Move(order.tokenIn, Escrow, order.owner, refunded);
      if !paid {
        return Err(Trap);
      }
      order := order.(remaining := 0, status := Expired);
      dcas := dcas[id := order];
      log := log + [Entry(now, DcaExpired(id, order.owner, refunded))];
      return Ok(());
    }
  }
}
