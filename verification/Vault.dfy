// The arbitrage vault: it lends principal to an allow-listed caller for one round trip.

module VaultModel {
  import opened AggregatorModel
  import opened Base
  import opened Ledger
  import Settlement

  function Deposit(c: Chain, auth: set<Address>, from: Address, token: Address, amount: int128): Result<Chain> {
    if from !in auth then Err(Trap)
    else if amount <= 0 then Err(InVault(NonPositiveAmount))
    else Transfer(c, token, from, Vault, amount)
  }

  /** The checks of `execute_round_trip`; on success, nothing. */
  function LendingChecks(callers: set<Address>, auth: set<Address>, now: uint32, caller: Address, amountIn: int128,
                         minOut: int128, allowanceExpiry: uint32): Result<()>
  {
    if caller !in auth then Err(Trap)
    else if caller !in callers then Err(InVault(UnauthorizedCaller))
    else if amountIn <= 0 then Err(InVault(NonPositiveAmount))
    else if minOut < amountIn then Err(InVault(MinimumBelowPrincipal))
    else if allowanceExpiry < now then Err(InVault(InvalidAllowanceExpiry))
    else Ok(())
  }

  /** The loan, the trade in the caller's name, and the reclaim. */
  function LendTradeReclaim(c: Chain, auth: set<Address>, caller: Address, base: Address, bridge: Address, amountIn: int128,
                            legOut: seq<SubRoute>, legBack: seq<SubRoute>, minOut: int128, replies: seq<Reply>):
    Result<(Chain, int128)>
  {
    var approved := Approve(c, base, caller, Vault, I128_MAX);
    var lent :- Transfer(approved, base, Vault, caller, amountIn);
    var (traded, baseTotal) :- RoundTrip(lent, auth, caller, base, bridge, amountIn, legOut, legBack, minOut, replies);
    var reclaimed :- TransferFrom(traded, base, Vault, caller, Vault, baseTotal);
    Ok((reclaimed, baseTotal))
  }

  /** `execute_round_trip` against the deployed aggregator, at ledger `now`. */
  function ExecuteRoundTrip(c: Chain, callers: set<Address>, auth: set<Address>, now: uint32, caller: Address, base: Address,
                            bridge: Address, amountIn: int128, legOut: seq<SubRoute>, legBack: seq<SubRoute>,
                            minOut: int128, allowanceExpiry: uint32, replies: seq<Reply>): Result<(Chain, int128)>
  {
    var _ :- LendingChecks(callers, auth, now, caller, amountIn, minOut, allowanceExpiry);
    LendTradeReclaim(c, auth, caller, base, bridge, amountIn, legOut, legBack, minOut, replies)
  }

  function AdminWithdraw(c: Chain, isAdmin: bool, token: Address, to: Address, amount: int128): Result<Chain> {
    if !isAdmin then Err(Trap)
    else if amount <= 0 then Err(InVault(NonPositiveAmount))
    else Transfer(c, token, Vault, to, amount)
  }

  /** The steps of a successful lending. */
  lemma LendingUnroll(c: Chain, callers: set<Address>, auth: set<Address>, now: uint32, caller: Address, base: Address,
                      bridge: Address, amountIn: int128, legOut: seq<SubRoute>, legBack: seq<SubRoute>, minOut: int128,
                      allowanceExpiry: uint32, replies: seq<Reply>, c': Chain, baseTotal: int128)
    returns (lent: Chain, traded: Chain)
    requires ExecuteRoundTrip(c, callers, auth, now, caller, base, bridge, amountIn, legOut, legBack, minOut,
                              allowanceExpiry, replies) == Ok((c', baseTotal))
    ensures caller in callers && caller in auth && 0 < amountIn <= minOut && now <= allowanceExpiry
    ensures Transfer(Approve(c, base, caller, Vault, I128_MAX), base, Vault, caller, amountIn) == Ok(lent)
    ensures RoundTrip(lent, auth, caller, base, bridge, amountIn, legOut, legBack, minOut, replies) == Ok((traded, baseTotal))
    ensures TransferFrom(traded, base, Vault, caller, Vault, baseTotal) == Ok(c')
  {
    hide Transfer, TransferFrom, RoundTrip;
    lent := Transfer(Approve(c, base, caller, Vault, I128_MAX), base, Vault, caller, amountIn).value;
    var r := RoundTrip(lent, auth, caller, base, bridge, amountIn, legOut, legBack, minOut, replies).value;
    traded := r.0;
  }

  /** Exactly what one lending does to the balances in token t: the vault gains the trading surplus in base,
      the caller breaks even in every token, the aggregator keeps the venues' excess, the escrow is not
      involved, and what the caller's approval leaves open is the maximum less the reclaimed total. */
  lemma LendingAccount(c: Chain, callers: set<Address>, auth: set<Address>, now: uint32, caller: Address, base: Address,
                       bridge: Address, amountIn: int128, legOut: seq<SubRoute>, legBack: seq<SubRoute>, minOut: int128,
                       allowanceExpiry: uint32, replies: seq<Reply>, c': Chain, baseTotal: int128, t: Address)
    requires caller !in {Aggregator, Escrow, Vault}
    requires ExecuteRoundTrip(c, callers, auth, now, caller, base, bridge, amountIn, legOut, legBack, minOut,
                              allowanceExpiry, replies) == Ok((c', baseTotal))
    ensures && baseTotal >= minOut >= amountIn
            && Balance(c', t, Vault) == Balance(c, t, Vault) + Settlement.When(t == base, baseTotal - amountIn)
            && Balance(c', t, caller) == Balance(c, t, caller)
            && Balance(c', t, Aggregator) == Balance(c, t, Aggregator) + Settlement.RoundTripExcess(legOut, legBack, replies, t)
            && Balance(c', t, Escrow) == Balance(c, t, Escrow)
            && Allowance(c', base, caller, Vault) == I128_MAX - baseTotal
  {
    var lent, traded := LendingUnroll(c, callers, auth, now, caller, base, bridge, amountIn, legOut, legBack, minOut,
                                      allowanceExpiry, replies, c', baseTotal);
    hide ExecuteRoundTrip, RoundTrip, Approve, Transfer, TransferFrom, Balance, Settlement.RoundTripExcess;
    LoanMoves(c, base, caller, amountIn, lent, t);
    Settlement.RoundTripSettles(lent, auth, caller, base, bridge, amountIn, legOut, legBack, minOut, replies, traded, baseTotal, t);
    ReclaimMoves(traded, base, caller, baseTotal, c', t);
  }

  lemma LoanPays(c: Chain, base: Address, caller: Address, amountIn: int128, lent: Chain, t: Address, a: Address)
    requires a != Vault && Transfer(Approve(c, base, caller, Vault, I128_MAX), base, Vault, caller, amountIn) == Ok(lent)
    ensures Balance(lent, t, a) == Balance(c, t, a) + Settlement.When(a == caller && t == base, amountIn)
  {
    hide Transfer, Balance;
    ApprovalKeepsBalances(c, base, caller, Vault, I128_MAX);
  }

  lemma ReclaimPays(c: Chain, base: Address, caller: Address, amount: int128, c': Chain, t: Address, a: Address)
    requires a != Vault && TransferFrom(c, base, Vault, caller, Vault, amount) == Ok(c')
    ensures Balance(c', t, a) == Balance(c, t, a) - Settlement.When(a == caller && t == base, amount)
  {
    hide Transfer, Balance;
    ApprovalKeepsBalances(c, base, caller, Vault, Allowance(c, base, caller, Vault) - amount);
  }

  /** No holder outside its routes sees a lending, except the vault and, through what venues leave, the aggregator. */
  lemma LendingMoves(c: Chain, callers: set<Address>, auth: set<Address>, now: uint32, caller: Address, base: Address,
                     bridge: Address, amountIn: int128, legOut: seq<SubRoute>, legBack: seq<SubRoute>, minOut: int128,
                     allowanceExpiry: uint32, replies: seq<Reply>, c': Chain, baseTotal: int128, t: Address, a: Address)
    requires caller !in {Aggregator, Escrow, Vault} && a !in {Aggregator, Vault}
    requires Settlement.Outside(legOut, caller, a) && Settlement.Outside(legBack, caller, a)
    requires ExecuteRoundTrip(c, callers, auth, now, caller, base, bridge, amountIn, legOut, legBack, minOut,
                              allowanceExpiry, replies) == Ok((c', baseTotal))
    ensures Balance(c', t, a) == Balance(c, t, a)
  {
    var lent, traded := LendingUnroll(c, callers, auth, now, caller, base, bridge, amountIn, legOut, legBack, minOut,
                                      allowanceExpiry, replies, c', baseTotal);
    hide ExecuteRoundTrip, RoundTrip, Approve, Transfer, TransferFrom, Balance, Settlement.Outside;
    LoanPays(c, base, caller, amountIn, lent, t, a);
    Settlement.RoundTripMoves(lent, auth, caller, base, bridge, amountIn, legOut, legBack, minOut, replies, traded, baseTotal, t, a);
    ReclaimPays(traded, base, caller, baseTotal, c', t, a);
  }

  lemma ApprovalKeepsBalances(c: Chain, token: Address, owner: Address, spender: Address, amount: Amount)
    ensures forall t, a :: Balance(Approve(c, token, owner, spender, amount), t, a) == Balance(c, t, a)
  {
  }

  /** The loan, in token t: from the vault to the caller, under the largest allowance. */
  lemma LoanMoves(c: Chain, base: Address, caller: Address, amountIn: int128, lent: Chain, t: Address)
    requires caller !in {Aggregator, Escrow, Vault}
    requires Transfer(Approve(c, base, caller, Vault, I128_MAX), base, Vault, caller, amountIn) == Ok(lent)
    ensures && Balance(lent, t, Vault) == Balance(c, t, Vault) - Settlement.When(t == base, amountIn)
            && Balance(lent, t, caller) == Balance(c, t, caller) + Settlement.When(t == base, amountIn)
            && Balance(lent, t, Aggregator) == Balance(c, t, Aggregator)
            && Balance(lent, t, Escrow) == Balance(c, t, Escrow)
            && Allowance(lent, base, caller, Vault) == I128_MAX
  {
    hide Transfer, Balance;
    ApprovalKeepsBalances(c, base, caller, Vault, I128_MAX);
  }

  /** The reclaim, in token t: from the caller to the vault, at the expense of the allowance. */
  lemma ReclaimMoves(c: Chain, base: Address, caller: Address, amount: int128, c': Chain, t: Address)
    requires caller !in {Aggregator, Escrow, Vault} && TransferFrom(c, base, Vault, caller, Vault, amount) == Ok(c')
    ensures && Balance(c', t, Vault) == Balance(c, t, Vault) + Settlement.When(t == base, amount)
            && Balance(c', t, caller) == Balance(c, t, caller) - Settlement.When(t == base, amount)
            && Balance(c', t, Aggregator) == Balance(c, t, Aggregator)
            && Balance(c', t, Escrow) == Balance(c, t, Escrow)
            && Allowance(c', base, caller, Vault) == Allowance(c, base, caller, Vault) - amount
  {
    hide Transfer, Balance;
    var left := Allowance(c, base, caller, Vault) - amount;
    ApprovalKeepsBalances(c, base, caller, Vault, left);
    assert c'.allowances == Approve(c, base, caller, Vault, left).allowances;
  }

  /** The reclaim can never lack allowance: only the transfer itself can refuse it. */
  lemma ReclaimIsAllowed(c: Chain, auth: set<Address>, caller: Address, base: Address, bridge: Address, amountIn: int128,
                         legOut: seq<SubRoute>, legBack: seq<SubRoute>, minOut: int128, replies: seq<Reply>,
                         traded: Chain, baseTotal: int128)
    requires caller != Aggregator
    requires Allowance(c, base, caller, Vault) == I128_MAX
    requires RoundTrip(c, auth, caller, base, bridge, amountIn, legOut, legBack, minOut, replies) == Ok((traded, baseTotal))
    ensures Allowance(traded, base, caller, Vault) >= baseTotal
  {
    hide RoundTrip;
    Settlement.RoundTripSettles(c, auth, caller, base, bridge, amountIn, legOut, legBack, minOut, replies, traded, baseTotal, base);
  }
}

module VaultContract {
  import opened AggregatorModel
  import opened Base
  import opened Ledger
  import AggregatorContract
  import VaultModel

  class VaultContract {
    const host: Host
    const aggregator: AggregatorContract.AggregatorContract
    /** The allow-listed callers. */
    var callers: set<Address>

    constructor (aggregator: AggregatorContract.AggregatorContract)
      ensures this.aggregator == aggregator && host == aggregator.host && callers == {}
    {
      this.aggregator, this.host, callers := aggregator, aggregator.host, {};
    }

    /** `add_caller` and `remove_caller`, once the administrator has authorized them. */
    method SetCaller(caller: Address, allowed: bool)
      modifies this
      ensures callers == if allowed then old(callers) + {caller} else old(callers) - {caller}
    {
      callers := if allowed then callers + {caller} else callers - {caller};
    }

    method Deposit(auth: set<Address>, from: Address, token: Address, amount: int128) returns (r: Result<()>)
      modifies host
      ensures var spec := VaultModel.Deposit(old(host.State()), auth, from, token, amount);
              && r.Ok? == spec.Ok?
              && host.State() == (if r.Ok? then spec.value else old(host.State()))
              && (r.Err? ==> r.error == spec.error)
    {
      if from !in auth {
        return Err(Trap);
      }
      if amount <= 0 {
        return Err(InVault(NonPositiveAmount));
      }
      var moved := host.Move(token, from, Vault, amount);
      return if moved then Ok(()) else Err(Trap);
    }

    method ExecuteRoundTrip(auth: set<Address>, now: uint32, caller: Address, base: Address, bridge: Address,
                            amountIn: int128, legOut: seq<SubRoute>, legBack: seq<SubRoute>, minOut: int128,
                            allowanceExpiry: uint32, replies: seq<Reply>) returns (r: Result<int128>)
      requires aggregator.host == host
      modifies host
      ensures var spec := VaultModel.ExecuteRoundTrip(old(host.State()), callers, auth, now, caller, base, bridge, amountIn,
                                                      legOut, legBack, minOut, allowanceExpiry, replies);
              && r.Ok? == spec.Ok?
              && (r.Ok? ==> spec.value == (host.State(), r.value))
              && (r.Err? ==> r.error == spec.error && host.State() == old(host.State()))
    {
      hide VaultModel.LendingChecks, VaultModel.LendTradeReclaim;
      var checked := CheckLending(auth, now, caller, amountIn, minOut, allowanceExpiry);
      if checked.Err? {
        return Err(checked.error);
      }
      var before := host.State();
      r := LendAndReclaim(auth, caller, base, bridge, amountIn, legOut, legBack, minOut, replies);
      if r.Err? {
        host.Restore(before);
      }
    }

    method CheckLending(auth: set<Address>, now: uint32, caller: Address, amountIn: int128, minOut: int128,
                        allowanceExpiry: uint32) returns (r: Result<()>)
      ensures r == VaultModel.LendingChecks(callers, auth, now, caller, amountIn, minOut, allowanceExpiry)
    {
      if caller !in auth {
        return Err(Trap);
      }
      if caller !in callers {
        return Err(InVault(UnauthorizedCaller));
      }
      if amountIn <= 0 {
        return Err(InVault(NonPositiveAmount));
      }
      if minOut < amountIn {
        return Err(InVault(MinimumBelowPrincipal));
      }
      if allowanceExpiry < now {
        return Err(InVault(InvalidAllowanceExpiry));
      }
      return Ok(());
    }

    method LendAndReclaim(auth: set<Address>, caller: Address, base: Address, bridge: Address, amountIn: int128,
                          legOut: seq<SubRoute>, legBack: seq<SubRoute>, minOut: int128, replies: seq<Reply>)
      returns (r: Result<int128>)
      requires aggregator.host == host
      modifies host
      ensures var spec := VaultModel.LendTradeReclaim(old(host.State()), auth, caller, base, bridge, amountIn, legOut, legBack,
                                                      minOut, replies);
              && r.Ok? == spec.Ok?
              && (r.Ok? ==> spec.value == (host.State(), r.value))
              && (r.Err? ==> r.error == spec.error)
    {
      hide RoundTrip, Transfer, TransferFrom, Approve, Balance;
      host.Allow(base, caller, Vault, I128_MAX);
      var lent := host.Move(base, Vault, caller, amountIn);
      if !lent {
        return Err(Trap);
      }
      r := aggregator.RoundTripSwap(auth, caller, base, bridge, amountIn, legOut, legBack, minOut, replies);
      if r.Err? {
        return r;
      }
      var reclaimed := host.MoveFrom(base, Vault, caller, Vault, r.value);
      if !reclaimed {
        return Err(Trap);
      }
    }
  }
}
