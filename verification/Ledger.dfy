// The token ledger every contract moves money on, and the aggregator's event log.

module Ledger {
  import opened Base

  /** (token, holder) -> balance; a missing entry is a zero balance. */
  type Balances = map<(Address, Address), Amount>

  datatype AggregatorEvent =
    | Leg(hop: uint32, dexTag: uint32, pool: Address, tokenIn: Address, amountIn: int128)
    | SwapDone(user: Address, tokenIn: Address, tokenOut: Address, totalIn: int128, totalOut: int128, routes: nat)
    | RoundTripDone(user: Address, base: Address, bridge: Address, amountIn: int128, baseTotal: int128,
                    depth: uint32, isSplit: bool)

  /** allowances: (token, owner, spender) -> amount the spender may still move. */
  datatype Chain = Chain(balances: Balances, allowances: map<(Address, Address, Address), Amount>, log: seq<AggregatorEvent>)

  function Balance(c: Chain, token: Address, holder: Address): Amount {
    if (token, holder) in c.balances then c.balances[(token, holder)] else 0
  }

  function SetBalance(c: Chain, token: Address, holder: Address, amount: Amount): Chain {
    c.(balances := c.balances[(token, holder) := amount])
  }

  function Emit(c: Chain, e: AggregatorEvent): Chain {
    c.(log := c.log + [e])
  }

  /** What a transfer of `amount` changes for holder a in token t. */
  function Moved(token: Address, from: Address, to: Address, amount: int, t: Address, a: Address): int {
    if t != token then 0 else (if a == to then amount else 0) - (if a == from then amount else 0)
  }

  /** A token contract's `transfer`. It refuses a negative amount, an overdraft and an overflow. */
  function Transfer(c: Chain, token: Address, from: Address, to: Address, amount: int): (r: Result<Chain>)
    ensures r.Ok? ==> 0 <= amount <= Balance(c, token, from)
    ensures r.Err? ==> r.error == Trap
    ensures r.Ok? ==> r.value.log == c.log && r.value.allowances == c.allowances
    ensures r.Ok? ==> forall t, a :: Balance(r.value, t, a) == Balance(c, t, a) + Moved(token, from, to, amount, t, a)
  {
    if amount < 0 || Balance(c, token, from) < amount then Err(Trap)
    else
      var debited := SetBalance(c, token, from, Balance(c, token, from) - amount);
      if Balance(debited, token, to) + amount > I128_MAX then Err(Trap)
      else Ok(SetBalance(debited, token, to, Balance(debited, token, to) + amount))
  }

  function Allowance(c: Chain, token: Address, owner: Address, spender: Address): Amount {
    if (token, owner, spender) in c.allowances then c.allowances[(token, owner, spender)] else 0
  }

  function Approve(c: Chain, token: Address, owner: Address, spender: Address, amount: Amount): Chain {
    c.(allowances := c.allowances[(token, owner, spender) := amount])
  }

  /** `transfer_from`: a transfer on the owner's behalf that uses up the spender's allowance. */
  function TransferFrom(c: Chain, token: Address, spender: Address, from: Address, to: Address, amount: int):
    (r: Result<Chain>)
    ensures r.Err? ==> r.error == Trap
  {
    if amount < 0 || Allowance(c, token, from, spender) < amount then Err(Trap)
    else Transfer(Approve(c, token, from, spender, Allowance(c, token, from, spender) - amount), token, from, to, amount)
  }

  /** The part of the host a contract call can change. */
  class Host {
    var balances: Balances
    var allowances: map<(Address, Address, Address), Amount>
    var log: seq<AggregatorEvent>

    constructor (c: Chain)
      ensures State() == c
    {
      balances, allowances, log := c.balances, c.allowances, c.log;
    }

    function State(): Chain
      reads this
    {
      Chain(balances, allowances, log)
    }

    /** Undoing every effect of a call that aborts. */
    method Restore(c: Chain)
      modifies this
      ensures State() == c
    {
      balances, allowances, log := c.balances, c.allowances, c.log;
    }

    method Move(token: Address, from: Address, to: Address, amount: int) returns (ok: bool)
      modifies this
      ensures ok == Transfer(old(State()), token, from, to, amount).Ok?
      ensures State() == if ok then Transfer(old(State()), token, from, to, amount).value else old(State())
    {
      hide Balance, Moved;
      var fromBalance := Balance(State(), token, from);
      if amount < 0 || fromBalance < amount {
        return false;
      }
      var before := balances;
      balances := balances[(token, from) := fromBalance - amount];
      var toBalance := Balance(State(), token, to);
      if toBalance + amount > I128_MAX {
        balances := before;
        return false;
      }
      balances := balances[(token, to) := toBalance + amount];
      return true;
    }

    method Publish(e: AggregatorEvent)
      modifies this
      ensures State() == Emit(old(State()), e)
    {
      log := log + [e];
    }

    method Allow(token: Address, owner: Address, spender: Address, amount: Amount)
      modifies this
      ensures State() == Approve(old(State()), token, owner, spender, amount)
    {
      allowances := allowances[(token, owner, spender) := amount];
    }

    method MoveFrom(token: Address, spender: Address, from: Address, to: Address, amount: int) returns (ok: bool)
      modifies this
      ensures ok == TransferFrom(old(State()), token, spender, from, to, amount).Ok?
      ensures State() == if ok then TransferFrom(old(State()), token, spender, from, to, amount).value else old(State())
    {
      hide Transfer, Balance;
      var allowance := Allowance(State(), token, from, spender);
      if amount < 0 || allowance < amount {
        return false;
      }
      var before := State();
      Allow(token, from, spender, allowance - amount);
      ok := Move(token, from, to, amount);
      if !ok {
        Restore(before);
      }
    }
  }
}
