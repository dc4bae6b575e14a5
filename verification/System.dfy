// The three contracts together: every entry point anyone can call, in any order, over one ledger.

module System {
  import opened AggregatorModel
  import opened Base
  import opened Ledger
  import EscrowModel
  import VaultModel

  datatype Op =
    | CreateLimit(owner: Address, tokenIn: Address, tokenOut: Address, amountIn: int128, limit: int128, expires: uint32)
    | Fill(id: uint64, amountIn: int128, routes: seq<SubRoute>, minOut: int128)
    | Cancel(id: uint64)
    | Reclaim(id: uint64)
    | CreateDca(owner: Address, tokenIn: Address, tokenOut: Address, amountIn: int128, chunk: int128, interval: uint32,
                start: uint32, minRate: int128, expires: uint32)
    | FillDca(id: uint64, routes: seq<SubRoute>, minOut: int128)
    | CancelDca(id: uint64)
    | ReclaimDca(id: uint64)
    | UserSwap(user: Address, tokenIn: Address, tokenOut: Address, routes: seq<SubRoute>, minOut: int128)
    | RestrictedSwap(user: Address, tokenIn: Address, tokenOut: Address, routes: seq<SubRoute>, minOut: int128)
    | UserRoundTrip(user: Address, base: Address, bridge: Address, amountIn: int128, legOut: seq<SubRoute>,
                    legBack: seq<SubRoute>, minOut: int128)
    | Lend(caller: Address, base: Address, bridge: Address, amountIn: int128, legOut: seq<SubRoute>,
           legBack: seq<SubRoute>, minOut: int128, allowanceExpiry: uint32)
    | Deposit(from: Address, token: Address, amount: int128)
    | Withdraw(token: Address, to: Address, amount: int128)
    | SetCaller(caller: Address, allowed: bool)
    | SetVenue(dexType: DexType, dexId: Address, allowed: bool)
    | Pay(token: Address, from: Address, to: Address, amount: int128)

  /** One transaction: what is called, who authorized it, the ledger it lands in, how the venues
      answer, and whether the administrator signed. */
  datatype Call = Call(op: Op, auth: set<Address>, now: uint32, replies: seq<Reply>, isAdmin: bool)

  datatype World = World(chain: Chain, book: EscrowModel.Book, venues: set<(uint32, Address)>, callers: set<Address>)

  /** The deployed contracts sign nothing on their own. */
  predicate WellSigned(call: Call) {
    Aggregator !in call.auth && Escrow !in call.auth && Vault !in call.auth
  }

  function Booked(w: World, r: Result<(Chain, EscrowModel.Book)>): (q: Result<World>)
    ensures q.Ok? ==> r == Ok((q.value.chain, q.value.book))
  {
    var (c, b) :- r;
    Ok(w.(chain := c, book := b))
  }

  function Traded(w: World, r: Result<(Chain, int128)>): Result<World> {
    var (c, _) :- r;
    Ok(w.(chain := c))
  }

  function Paid(w: World, r: Result<Chain>): Result<World> {
    var c :- r;
    Ok(w.(chain := c))
  }

  function Attempt(w: World, call: Call): Result<World> {
    var c, b, auth, now, replies := w.chain, w.book, call.auth, call.now, call.replies;
    match call.op
    case CreateLimit(owner, tokenIn, tokenOut, amountIn, limit, expires) =>
      Booked(w, EscrowModel.CreateLimit(c, b, auth, now, owner, tokenIn, tokenOut, amountIn, limit, expires))
    case Fill(id, amountIn, routes, minOut) =>
      Booked(w, EscrowModel.Fill(c, b, w.venues, now, id, amountIn, routes, minOut, replies))
    case Cancel(id) => Booked(w, EscrowModel.Cancel(c, b, auth, now, id))
    case Reclaim(id) => Booked(w, EscrowModel.Reclaim(c, b, now, id))
    case CreateDca(owner, tokenIn, tokenOut, amountIn, chunk, interval, start, minRate, expires) =>
      Booked(w, EscrowModel.CreateDca(c, b, auth, now, owner, tokenIn, tokenOut, amountIn, chunk, interval, start, minRate, expires))
    case FillDca(id, routes, minOut) => Booked(w, EscrowModel.FillDca(c, b, w.venues, now, id, routes, minOut, replies))
    case CancelDca(id) => Booked(w, EscrowModel.CancelDca(c, b, auth, now, id))
    case ReclaimDca(id) => Booked(w, EscrowModel.ReclaimDca(c, b, now, id))
    case UserSwap(user, tokenIn, tokenOut, routes, minOut) =>
      Traded(w, AggregatorModel.Swap(c, auth, user, tokenIn, tokenOut, routes, minOut, replies))
    case RestrictedSwap(user, tokenIn, tokenOut, routes, minOut) =>
      Traded(w, AggregatorModel.SwapRestricted(c, w.venues, auth, user, tokenIn, tokenOut, routes, minOut, replies))
    case UserRoundTrip(user, base, bridge, amountIn, legOut, legBack, minOut) =>
      Traded(w, AggregatorModel.RoundTrip(c, auth, user, base, bridge, amountIn, legOut, legBack, minOut, replies))
    case Lend(caller, base, bridge, amountIn, legOut, legBack, minOut, allowanceExpiry) =>
      Traded(w, VaultModel.ExecuteRoundTrip(c, w.callers, auth, now, caller, base, bridge, amountIn, legOut, legBack,
                                            minOut, allowanceExpiry, replies))
    case Deposit(from, token, amount) => Paid(w, VaultModel.Deposit(c, auth, from, token, amount))
    case Withdraw(token, to, amount) => Paid(w, VaultModel.AdminWithdraw(c, call.isAdmin, token, to, amount))
    case SetCaller(caller, allowed) =>
      if !call.isAdmin then Err(Trap)
      else Ok(w.(callers := if allowed then w.callers + {caller} else w.callers - {caller}))
    case SetVenue(dexType, dexId, allowed) =>
      if !call.isAdmin then Err(Trap)
      else
        var venue := (DexTag(dexType), dexId);
        Ok(w.(venues := if allowed then w.venues + {venue} else w.venues - {venue}))
    case Pay(token, from, to, amount) =>
      if from !in auth then Err(Trap) else Paid(w, Transfer(c, token, from, to, amount))
  }

  /** A call that fails leaves the world as it was. */
  function Exec(w: World, call: Call): World {
    var r := Attempt(w, call);
    if r.Ok? then r.value else w
  }

  function Run(w: World, calls: seq<Call>): World {
    if calls == [] then w else Exec(Run(w, calls[..|calls| - 1]), calls[|calls| - 1])
  }

  /** Nothing has been ordered yet; balances, venues and callers are arbitrary. */
  ghost predicate Initial(w: World) {
    w.book == EscrowModel.Book(map[], map[], 0, 0, [])
  }

  ghost predicate AllSigned(calls: seq<Call>) {
    forall k :: 0 <= k < |calls| ==> WellSigned(calls[k])
  }
}
