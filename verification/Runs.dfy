// Run-level guarantees: the escrow stays solvent, the aggregator keeps nothing, the vault never loses.

module Runs {
  import opened AggregatorModel
  import opened Base
  import opened Custody
  import opened EscrowModel
  import opened Ledger
  import opened System
  import Settlement
  import VaultModel

  /** What a call pays straight to contract a, outside orders and trades. */
  function Received(call: Call, a: Address, t: Address): int {
    match call.op
    case Pay(token, _, to, amount) => Settlement.When(token == t && to == a, amount)
    case Deposit(_, token, amount) => Settlement.When(token == t && a == Vault, amount)
    case Withdraw(token, to, amount) => Settlement.When(token == t && to == a, amount)
    case _ => 0
  }

  function Withdrawn(call: Call, t: Address): int {
    match call.op
    case Withdraw(token, _, amount) => Settlement.When(token == t, amount)
    case _ => 0
  }

  /** What the venues of a call left with the aggregator: paid beyond the numbers their arms reported, or not taken. */
  function Excess(call: Call, t: Address): int {
    match call.op
    case Fill(_, _, routes, _) => Settlement.RoutesExcess(routes, 0, call.replies, 0, t)
    case FillDca(_, routes, _) => Settlement.RoutesExcess(routes, 0, call.replies, 0, t)
    case UserSwap(_, _, _, routes, _) => Settlement.RoutesExcess(routes, 0, call.replies, 0, t)
    case RestrictedSwap(_, _, _, routes, _) => Settlement.RoutesExcess(routes, 0, call.replies, 0, t)
    case UserRoundTrip(_, _, _, _, legOut, legBack, _) => Settlement.RoundTripExcess(legOut, legBack, call.replies, t)
    case Lend(_, _, _, _, legOut, legBack, _, _) => Settlement.RoundTripExcess(legOut, legBack, call.replies, t)
    case _ => 0
  }

  /** The trading surplus a lending leaves in the vault. */
  ghost function LendingGain(w: World, call: Call, t: Address): int {
    match call.op
    case Lend(caller, base, bridge, amountIn, legOut, legBack, minOut, allowanceExpiry) =>
      var r := VaultModel.ExecuteRoundTrip(w.chain, w.callers, call.auth, call.now, caller, base, bridge, amountIn, legOut,
                                           legBack, minOut, allowanceExpiry, call.replies);
      if r.Ok? then Settlement.When(t == base, r.value.1 - amountIn) else 0
    case _ => 0
  }

  predicate IsOrderOp(op: Op) {
    op.CreateLimit? || op.Fill? || op.Cancel? || op.Reclaim? || op.CreateDca? || op.FillDca? || op.CancelDca? || op.ReclaimDca?
  }

  predicate IsTradeOp(op: Op) {
    op.UserSwap? || op.RestrictedSwap? || op.UserRoundTrip? || op.Lend?
  }

  /** What one successful call does to the holdings of the three contracts in token t. */
  ghost predicate Accounted(w: World, call: Call, w': World, t: Address) {
    && ValidBook(w'.book)
    && Spare(w'.chain, w'.book, t) == Spare(w.chain, w.book, t) + Received(call, Escrow, t)
    && Balance(w'.chain, t, Aggregator) == Balance(w.chain, t, Aggregator) + Excess(call, t) + Received(call, Aggregator, t)
    && Balance(w'.chain, t, Vault) == Balance(w.chain, t, Vault) + Received(call, Vault, t) - Withdrawn(call, t)
                                      + LendingGain(w, call, t)
    && LendingGain(w, call, t) >= 0
  }

  lemma SignersAreOutsiders(call: Call)
    requires WellSigned(call)
    ensures forall a :: a in call.auth ==> Outsider(a)
  {
  }

  lemma OrderCallAccounted(w: World, call: Call, w': World, t: Address)
    requires ValidBook(w.book) && WellSigned(call) && IsOrderOp(call.op) && Attempt(w, call) == Ok(w')
    ensures Accounted(w, call, w', t)
  {
    hide EscrowModel.CreateLimit, EscrowModel.CreateDca, EscrowModel.Fill, EscrowModel.FillDca, CloseLimit, CloseDca, ValidBook, Spare, Balance,
         Settlement.RoutesExcess, Settlement.RoundTripExcess;
    SignersAreOutsiders(call);
    var c, b, c', b' := w.chain, w.book, w'.chain, w'.book;
    match call.op {
      case CreateLimit(owner, tokenIn, tokenOut, amountIn, limit, expires) =>
        CreateLimitKeeps(c, b, call.auth, call.now, owner, tokenIn, tokenOut, amountIn, limit, expires, c', b', t);
      case Fill(id, amountIn, routes, minOut) =>
        FillKeeps(c, b, w.venues, call.now, id, amountIn, routes, minOut, call.replies, c', b', t);
      case Cancel(id) => CloseLimitKeeps(c, b, call.now, id, Cancelled, c', b', t);
      case Reclaim(id) => CloseLimitKeeps(c, b, call.now, id, Expired, c', b', t);
      case CreateDca(owner, tokenIn, tokenOut, amountIn, chunk, interval, start, minRate, expires) =>
        CreateDcaKeeps(c, b, call.auth, call.now, owner, tokenIn, tokenOut, amountIn, chunk, interval, start, minRate,
                       expires, c', b', t);
      case FillDca(id, routes, minOut) =>
        FillDcaKeeps(c, b, w.venues, call.now, id, routes, minOut, call.replies, c', b', t);
      case CancelDca(id) => CloseDcaKeeps(c, b, call.now, id, Cancelled, c', b', t);
      case ReclaimDca(id) => CloseDcaKeeps(c, b, call.now, id, Expired, c', b', t);
    }
  }

  lemma TradesPayNothing(call: Call, t: Address)
    requires IsTradeOp(call.op)
    ensures Received(call, Escrow, t) == Received(call, Aggregator, t) == Received(call, Vault, t) == 0 && Withdrawn(call, t) == 0
  {
  }

  lemma TradeAccounted(w: World, call: Call, w': World, t: Address)
    requires ValidBook(w.book) && IsTradeOp(call.op) && w'.book == w.book && LendingGain(w, call, t) >= 0
    requires Balance(w'.chain, t, Escrow) == Balance(w.chain, t, Escrow)
    requires Balance(w'.chain, t, Aggregator) == Balance(w.chain, t, Aggregator) + Excess(call, t)
    requires Balance(w'.chain, t, Vault) == Balance(w.chain, t, Vault) + LendingGain(w, call, t)
    ensures Accounted(w, call, w', t)
  {
    hide Balance, Claimed, LimitClaims, DcaClaims, ValidBook, Excess, LendingGain, Received, Withdrawn;
    TradesPayNothing(call, t);
  }

  lemma TradeCallAccounted(w: World, call: Call, w': World, t: Address)
    requires ValidBook(w.book) && WellSigned(call) && Attempt(w, call) == Ok(w')
    requires IsTradeOp(call.op)
    ensures Accounted(w, call, w', t)
  {
    hide AggregatorModel.Swap, SwapRestricted, RoundTrip, VaultModel.ExecuteRoundTrip, ValidBook, Balance, Accounted,
         Settlement.RoutesExcess, Settlement.RoundTripExcess, Amounts, Sum;
    var c, c', auth, replies := w.chain, w'.chain, call.auth, call.replies;
    match call.op {
      case UserSwap(user, tokenIn, tokenOut, routes, minOut) =>
        var out := AggregatorModel.Swap(c, auth, user, tokenIn, tokenOut, routes, minOut, replies).value.1;
        SwapNeedsSignature(c, auth, user, tokenIn, tokenOut, routes, minOut, replies);
        Settlement.SwapSettles(c, auth, user, tokenIn, tokenOut, routes, minOut, replies, c', out, t);
      case RestrictedSwap(user, tokenIn, tokenOut, routes, minOut) =>
        RestrictedIsSwap(c, w.venues, auth, user, tokenIn, tokenOut, routes, minOut, replies);
        var out := AggregatorModel.Swap(c, auth, user, tokenIn, tokenOut, routes, minOut, replies).value.1;
        SwapNeedsSignature(c, auth, user, tokenIn, tokenOut, routes, minOut, replies);
        Settlement.SwapSettles(c, auth, user, tokenIn, tokenOut, routes, minOut, replies, c', out, t);
      case UserRoundTrip(user, base, bridge, amountIn, legOut, legBack, minOut) =>
        var out := RoundTrip(c, auth, user, base, bridge, amountIn, legOut, legBack, minOut, replies).value.1;
        RoundTripNeedsSignature(c, auth, user, base, bridge, amountIn, legOut, legBack, minOut, replies);
        Settlement.RoundTripSettles(c, auth, user, base, bridge, amountIn, legOut, legBack, minOut, replies, c', out, t);
      case Lend(caller, base, bridge, amountIn, legOut, legBack, minOut, expiry) =>
        LendingNeedsSignature(w, call);
        var out := VaultModel.ExecuteRoundTrip(c, w.callers, auth, call.now, caller, base, bridge, amountIn, legOut,
                                               legBack, minOut, expiry, replies).value.1;
        VaultModel.LendingAccount(c, w.callers, auth, call.now, caller, base, bridge, amountIn, legOut, legBack, minOut,
                                  expiry, replies, c', out, t);
    }
    TradeAccounted(w, call, w', t);
  }

  lemma RestrictedIsSwap(c: Chain, venues: set<(uint32, Address)>, auth: set<Address>, user: Address, tokenIn: Address,
                         tokenOut: Address, routes: seq<SubRoute>, minOut: int128, replies: seq<Reply>)
    requires SwapRestricted(c, venues, auth, user, tokenIn, tokenOut, routes, minOut, replies).Ok?
    ensures SwapRestricted(c, venues, auth, user, tokenIn, tokenOut, routes, minOut, replies)
            == AggregatorModel.Swap(c, auth, user, tokenIn, tokenOut, routes, minOut, replies)
  {
  }

  lemma SwapNeedsSignature(c: Chain, auth: set<Address>, user: Address, tokenIn: Address, tokenOut: Address,
                           routes: seq<SubRoute>, minOut: int128, replies: seq<Reply>)
    requires AggregatorModel.Swap(c, auth, user, tokenIn, tokenOut, routes, minOut, replies).Ok?
    ensures user in auth
  {
  }

  lemma RoundTripNeedsSignature(c: Chain, auth: set<Address>, user: Address, base: Address, bridge: Address, amountIn: int128,
                                legOut: seq<SubRoute>, legBack: seq<SubRoute>, minOut: int128, replies: seq<Reply>)
    requires RoundTrip(c, auth, user, base, bridge, amountIn, legOut, legBack, minOut, replies).Ok?
    ensures user in auth
  {
  }

  lemma LendingNeedsSignature(w: World, call: Call)
    requires call.op.Lend? && Attempt(w, call).Ok?
    ensures call.op.caller in call.auth
  {
  }

  lemma OtherCallKeepsBook(w: World, call: Call, w': World)
    requires !IsOrderOp(call.op) && Attempt(w, call) == Ok(w')
    ensures w'.book == w.book
  {
    hide AggregatorModel.Swap, SwapRestricted, RoundTrip, VaultModel.ExecuteRoundTrip, VaultModel.Deposit,
         VaultModel.AdminWithdraw, Transfer;
  }

  /** A call that is neither an order nor a trade moves one token at most. */
  lemma PlainCallEffect(w: World, call: Call, w': World)
    requires !IsOrderOp(call.op) && !IsTradeOp(call.op) && Attempt(w, call) == Ok(w')
    ensures call.op.SetCaller? || call.op.SetVenue? ==> w'.chain == w.chain
    ensures call.op.Pay? ==>
              call.op.from in call.auth && Transfer(w.chain, call.op.token, call.op.from, call.op.to, call.op.amount) == Ok(w'.chain)
    ensures call.op.Deposit? ==>
              call.op.from in call.auth && Transfer(w.chain, call.op.token, call.op.from, Vault, call.op.amount) == Ok(w'.chain)
    ensures call.op.Withdraw? ==> Transfer(w.chain, call.op.token, Vault, call.op.to, call.op.amount) == Ok(w'.chain)
  {
    hide AggregatorModel.Swap, RoundTrip, VaultModel.ExecuteRoundTrip, EscrowModel.CreateLimit, EscrowModel.CreateDca,
         EscrowModel.Fill, EscrowModel.FillDca, EscrowModel.Cancel, EscrowModel.Reclaim, EscrowModel.CancelDca,
         EscrowModel.ReclaimDca, Transfer;
  }

  /** What a payment does to the holdings of the three contracts. */
  lemma PaymentAccount(c: Chain, b: Book, token: Address, from: Address, to: Address, amount: int, c': Chain, t: Address)
    requires Transfer(c, token, from, to, amount) == Ok(c')
    ensures Spare(c', b, t) == Spare(c, b, t) + Moved(token, from, to, amount, t, Escrow)
    ensures Balance(c', t, Aggregator) == Balance(c, t, Aggregator) + Moved(token, from, to, amount, t, Aggregator)
    ensures Balance(c', t, Vault) == Balance(c, t, Vault) + Moved(token, from, to, amount, t, Vault)
  {
    hide Transfer, Balance, Claimed, LimitClaims, DcaClaims, Moved;
  }

  /** What a call that is neither an order nor a trade receives and pays out, as one movement. */
  lemma PlainFlows(w: World, call: Call, a: Address, t: Address)
    requires !IsOrderOp(call.op) && !IsTradeOp(call.op)
    ensures Excess(call, t) == 0 && LendingGain(w, call, t) == 0
    ensures call.op.SetCaller? || call.op.SetVenue? ==> Received(call, a, t) == 0 && Withdrawn(call, t) == 0
    ensures call.op.Pay? && call.op.from != a ==>
              Received(call, a, t) == Moved(call.op.token, call.op.from, call.op.to, call.op.amount, t, a) && Withdrawn(call, t) == 0
    ensures call.op.Deposit? && call.op.from != a ==>
              Received(call, a, t) == Moved(call.op.token, call.op.from, Vault, call.op.amount, t, a) && Withdrawn(call, t) == 0
    ensures call.op.Withdraw? ==>
              Received(call, a, t) - (if a == Vault then Withdrawn(call, t) else 0)
              == Moved(call.op.token, Vault, call.op.to, call.op.amount, t, a)
  {
    hide VaultModel.ExecuteRoundTrip, Settlement.RoutesExcess, Settlement.RoundTripExcess;
  }

  lemma PlainCallAccounted(w: World, call: Call, w': World, t: Address)
    requires ValidBook(w.book) && WellSigned(call) && Attempt(w, call) == Ok(w')
    requires !IsOrderOp(call.op) && !IsTradeOp(call.op)
    ensures Accounted(w, call, w', t)
  {
    hide Attempt, ValidBook, Balance, Transfer, Spare, Received, Withdrawn, Excess, LendingGain, Moved;
    PlainCallEffect(w, call, w');
    OtherCallKeepsBook(w, call, w');
    PlainFlows(w, call, Escrow, t);
    PlainFlows(w, call, Aggregator, t);
    PlainFlows(w, call, Vault, t);
    var op := call.op;
    if op.Pay? {
      PaymentAccount(w.chain, w.book, op.token, op.from, op.to, op.amount, w'.chain, t);
    } else if op.Deposit? {
      PaymentAccount(w.chain, w.book, op.token, op.from, Vault, op.amount, w'.chain, t);
    } else if op.Withdraw? {
      PaymentAccount(w.chain, w.book, op.token, Vault, op.to, op.amount, w'.chain, t);
    }
  }

  /** One call, whoever makes it and whatever it is, successful or not. */
  lemma CallAccounted(w: World, call: Call, t: Address)
    requires ValidBook(w.book) && WellSigned(call)
    ensures Attempt(w, call).Ok? ==> Accounted(w, call, Exec(w, call), t)
    ensures ValidBook(Exec(w, call).book)
  {
    hide Attempt, ValidBook, Spare, Balance, Excess, LendingGain, Received, Withdrawn;
    if Attempt(w, call).Ok? {
      var w' := Attempt(w, call).value;
      if IsOrderOp(call.op) {
        OrderCallAccounted(w, call, w', t);
      } else if IsTradeOp(call.op) {
        TradeCallAccounted(w, call, w', t);
      } else {
        PlainCallAccounted(w, call, w', t);
      }
    }
  }

  // ----- Runs -----

  /** The sum over a run of what each successful call contributes. */
  ghost function Total(w: World, calls: seq<Call>, per: (World, Call) -> int): int {
    if calls == [] then 0
    else
      var before, call := Run(w, calls[..|calls| - 1]), calls[|calls| - 1];
      Total(w, calls[..|calls| - 1], per) + if Attempt(before, call).Ok? then per(before, call) else 0
  }

  ghost function Gifts(w: World, calls: seq<Call>, a: Address, t: Address): int {
    Total(w, calls, (_, call) => Received(call, a, t))
  }

  ghost function LeftBehind(w: World, calls: seq<Call>, t: Address): int {
    Total(w, calls, (_, call) => Excess(call, t))
  }

  ghost function Withdrawals(w: World, calls: seq<Call>, t: Address): int {
    Total(w, calls, (_, call) => Withdrawn(call, t))
  }

  ghost function LendingGains(w: World, calls: seq<Call>, t: Address): int {
    Total(w, calls, (before, call) => LendingGain(before, call, t))
  }

  /** The whole account of any run, in any interleaving of calls to the three contracts. */
  lemma {:induction false} RunAccounted(w: World, calls: seq<Call>, t: Address)
    requires ValidBook(w.book) && AllSigned(calls)
    ensures var w' := Run(w, calls);
            && ValidBook(w'.book)
            && Spare(w'.chain, w'.book, t) == Spare(w.chain, w.book, t) + Gifts(w, calls, Escrow, t)
            && Balance(w'.chain, t, Aggregator) == Balance(w.chain, t, Aggregator) + LeftBehind(w, calls, t) + Gifts(w, calls, Aggregator, t)
            && Balance(w'.chain, t, Vault) == Balance(w.chain, t, Vault) + Gifts(w, calls, Vault, t) - Withdrawals(w, calls, t)
                                              + LendingGains(w, calls, t)
  {
    hide Attempt, ValidBook, Spare, Balance, Excess, LendingGain, Received, Withdrawn;
    if calls == [] {
    } else {
      var front, call := calls[..|calls| - 1], calls[|calls| - 1];
      assert WellSigned(call);
      RunAccounted(w, front, t);
      CallAccounted(Run(w, front), call, t);
    }
  }

  lemma InitialIsValid(w: World)
    requires Initial(w)
    ensures ValidBook(w.book)
    ensures forall t :: Spare(w.chain, w.book, t) == Balance(w.chain, t, Escrow)
  {
  }

  // ----- Main results -----

  lemma ReceivedNonNegative(w: World, call: Call, a: Address, t: Address)
    requires Attempt(w, call).Ok?
    ensures Received(call, a, t) >= 0
  {
    hide AggregatorModel.Swap, RoundTrip, VaultModel.ExecuteRoundTrip, EscrowModel.CreateLimit, EscrowModel.CreateDca,
         EscrowModel.Fill, EscrowModel.FillDca, EscrowModel.Cancel, EscrowModel.Reclaim, EscrowModel.CancelDca,
         EscrowModel.ReclaimDca, Balance;
  }

  lemma {:induction false} GiftsNonNegative(w: World, calls: seq<Call>, a: Address, t: Address)
    ensures Gifts(w, calls, a, t) >= 0
  {
    hide Attempt, Received;
    if calls == [] {
    } else {
      GiftsNonNegative(w, calls[..|calls| - 1], a, t);
      var before, call := Run(w, calls[..|calls| - 1]), calls[|calls| - 1];
      if Attempt(before, call).Ok? {
        ReceivedNonNegative(before, call, a, t);
      }
    }
  }

  /** Solvency: after any run from an empty book, what the escrow holds beyond its orders' claims is exactly what
      it held at the start plus what was paid straight into it, so it always covers every claim. */
  lemma EscrowSolvent(w: World, calls: seq<Call>, t: Address)
    requires Initial(w) && AllSigned(calls)
    ensures var w' := Run(w, calls);
            && ValidBook(w'.book)
            && Spare(w'.chain, w'.book, t) == Balance(w.chain, t, Escrow) + Gifts(w, calls, Escrow, t)
            && Balance(w'.chain, t, Escrow) >= Claimed(LimitClaims(w'.book), w'.book.nextLimit, t)
                                               + Claimed(DcaClaims(w'.book), w'.book.nextDca, t)
  {
    hide Run, Gifts, Claimed, LimitClaims, DcaClaims, Balance;
    InitialIsValid(w);
    RunAccounted(w, calls, t);
    GiftsNonNegative(w, calls, Escrow, t);
  }

  lemma {:induction false} ClaimCovered(m: map<uint64, Claim>, n: uint64, id: uint64, t: Address)
    requires id < n
    ensures ClaimIn(m, id, t) <= Claimed(m, n, t)
    decreases n
  {
    if id < n - 1 {
      ClaimCovered(m, n - 1, id, t);
    }
  }

  lemma RefundCovered(w: World, calls: seq<Call>, token: Address)
    requires Initial(w) && AllSigned(calls)
    ensures var b := Run(w, calls).book;
            && (forall id :: id in b.limits && b.limits[id].tokenIn == token ==>
                  b.limits[id].remaining <= Balance(Run(w, calls).chain, token, Escrow))
            && (forall id :: id in b.dcas && b.dcas[id].tokenIn == token ==>
                  b.dcas[id].remaining <= Balance(Run(w, calls).chain, token, Escrow))
  {
    hide Run, Gifts, Balance, Claimed;
    EscrowSolvent(w, calls, token);
    var b := Run(w, calls).book;
    forall id | id in b.limits && b.limits[id].tokenIn == token
      ensures b.limits[id].remaining <= Balance(Run(w, calls).chain, token, Escrow)
    {
      ClaimCovered(LimitClaims(b), b.nextLimit, id, token);
    }
    forall id | id in b.dcas && b.dcas[id].tokenIn == token
      ensures b.dcas[id].remaining <= Balance(Run(w, calls).chain, token, Escrow)
    {
      ClaimCovered(DcaClaims(b), b.nextDca, id, token);
    }
  }

  /** After any run, an owner's cancellation and an expired order's reclaim are refused by nothing but an owner
      whose balance cannot take the refund. */
  lemma OpenOrdersRefundable(w: World, calls: seq<Call>, id: uint64, auth: set<Address>, now: uint32)
    requires Initial(w) && AllSigned(calls)
    requires var b := Run(w, calls).book; id in b.limits && b.limits[id].status.Open? && b.limits[id].owner in auth
    ensures var r := Run(w, calls);
            var o := r.book.limits[id];
            && (EscrowModel.Cancel(r.chain, r.book, auth, now, id).Ok? <==> Balance(r.chain, o.tokenIn, o.owner) + o.remaining <= I128_MAX)
            && (now > o.expires ==>
                  (EscrowModel.Reclaim(r.chain, r.book, now, id).Ok? <==> Balance(r.chain, o.tokenIn, o.owner) + o.remaining <= I128_MAX))
  {
    hide Run, Claimed, Spare;
    var r := Run(w, calls);
    RefundCovered(w, calls, r.book.limits[id].tokenIn);
    EscrowSolvent(w, calls, r.book.limits[id].tokenIn);
    assert ValidLimit(r.book.limits[id]);
  }

  lemma OpenDcasRefundable(w: World, calls: seq<Call>, id: uint64, auth: set<Address>, now: uint32)
    requires Initial(w) && AllSigned(calls)
    requires var b := Run(w, calls).book; id in b.dcas && b.dcas[id].status.Open? && b.dcas[id].owner in auth
    ensures var r := Run(w, calls);
            var o := r.book.dcas[id];
            && (EscrowModel.CancelDca(r.chain, r.book, auth, now, id).Ok? <==> Balance(r.chain, o.tokenIn, o.owner) + o.remaining <= I128_MAX)
            && (now > o.expires ==>
                  (EscrowModel.ReclaimDca(r.chain, r.book, now, id).Ok? <==> Balance(r.chain, o.tokenIn, o.owner) + o.remaining <= I128_MAX))
  {
    hide Run, Claimed, Spare;
    var r := Run(w, calls);
    RefundCovered(w, calls, r.book.dcas[id].tokenIn);
    EscrowSolvent(w, calls, r.book.dcas[id].tokenIn);
    assert ValidDca(r.book.dcas[id]);
  }

  lemma {:induction false} GainsAndWithdrawals(w: World, calls: seq<Call>, t: Address)
    requires ValidBook(w.book) && AllSigned(calls) && forall k :: 0 <= k < |calls| ==> !calls[k].op.Withdraw?
    ensures LendingGains(w, calls, t) >= 0 && Withdrawals(w, calls, t) == 0
  {
    hide Attempt, LendingGain, Accounted, ValidBook, Received, Excess;
    if calls == [] {
    } else {
      var front, call := calls[..|calls| - 1], calls[|calls| - 1];
      GainsAndWithdrawals(w, front, t);
      RunAccounted(w, front, t);
      GainNonNegative(Run(w, front), call, t);
    }
  }

  lemma GainNonNegative(w: World, call: Call, t: Address)
    requires ValidBook(w.book) && WellSigned(call)
    ensures Attempt(w, call).Ok? ==> LendingGain(w, call, t) >= 0
  {
    hide Attempt, LendingGain, ValidBook, Spare, Balance, Excess, Received, Withdrawn;
    CallAccounted(w, call, t);
  }

  /** The vault never loses: over any run without an administrator's withdrawal, its balance in every token only grows. */
  lemma VaultNeverLoses(w: World, calls: seq<Call>, t: Address)
    requires ValidBook(w.book) && AllSigned(calls) && forall k :: 0 <= k < |calls| ==> !calls[k].op.Withdraw?
    ensures Balance(Run(w, calls).chain, t, Vault) >= Balance(w.chain, t, Vault)
  {
    hide Run, Gifts, LendingGains, Withdrawals, ValidBook, Balance, Spare;
    RunAccounted(w, calls, t);
    GiftsNonNegative(w, calls, Vault, t);
    GainsAndWithdrawals(w, calls, t);
  }

  /** Every venue reply a call can use is honest. */
  ghost predicate HonestCall(call: Call) {
    match call.op
    case Fill(_, _, routes, _) => Settlement.HonestReplies(routes, call.replies, 0)
    case FillDca(_, routes, _) => Settlement.HonestReplies(routes, call.replies, 0)
    case UserSwap(_, _, _, routes, _) => Settlement.HonestReplies(routes, call.replies, 0)
    case RestrictedSwap(_, _, _, routes, _) => Settlement.HonestReplies(routes, call.replies, 0)
    case UserRoundTrip(_, _, _, _, legOut, legBack, _) => HonestTrip(legOut, legBack, call.replies)
    case Lend(_, _, _, _, legOut, legBack, _, _) => HonestTrip(legOut, legBack, call.replies)
    case _ => true
  }

  ghost predicate HonestTrip(legOut: seq<SubRoute>, legBack: seq<SubRoute>, replies: seq<Reply>) {
    Settlement.HonestReplies(legOut, replies, 0) && Settlement.HonestReplies(legBack, replies, HopsBefore(legOut, |legOut|))
  }

  lemma HonestCallLeavesNothing(call: Call, t: Address)
    requires HonestCall(call)
    ensures Excess(call, t) == 0
  {
    hide Settlement.RoutesExcess, Settlement.HonestReplies, HopsBefore;
    match call.op {
      case Fill(_, _, routes, _) => Settlement.HonestRoutesLeaveNothing(routes, 0, call.replies, 0, t);
      case FillDca(_, routes, _) => Settlement.HonestRoutesLeaveNothing(routes, 0, call.replies, 0, t);
      case UserSwap(_, _, _, routes, _) => Settlement.HonestRoutesLeaveNothing(routes, 0, call.replies, 0, t);
      case RestrictedSwap(_, _, _, routes, _) => Settlement.HonestRoutesLeaveNothing(routes, 0, call.replies, 0, t);
      case UserRoundTrip(_, _, _, _, legOut, legBack, _) =>
        Settlement.HonestRoutesLeaveNothing(legOut, 0, call.replies, 0, t);
        Settlement.HonestRoutesLeaveNothing(legBack, 0, call.replies, HopsBefore(legOut, |legOut|), t);
      case Lend(_, _, _, _, legOut, legBack, _, _) =>
        Settlement.HonestRoutesLeaveNothing(legOut, 0, call.replies, 0, t);
        Settlement.HonestRoutesLeaveNothing(legBack, 0, call.replies, HopsBefore(legOut, |legOut|), t);
      case _ =>
    }
  }

  lemma {:induction false} HonestRunLeavesNothing(w: World, calls: seq<Call>, t: Address)
    requires forall k :: 0 <= k < |calls| ==> HonestCall(calls[k])
    ensures LeftBehind(w, calls, t) == 0
  {
    hide Attempt, Excess, HonestCall;
    if calls == [] {
    } else {
      HonestRunLeavesNothing(w, calls[..|calls| - 1], t);
      HonestCallLeavesNothing(calls[|calls| - 1], t);
    }
  }

  /** The aggregator holds nothing: over any run against honest venues its balances change only by direct payments to it. */
  lemma AggregatorKeepsNothing(w: World, calls: seq<Call>, t: Address)
    requires ValidBook(w.book) && AllSigned(calls) && forall k :: 0 <= k < |calls| ==> HonestCall(calls[k])
    ensures Balance(Run(w, calls).chain, t, Aggregator) == Balance(w.chain, t, Aggregator) + Gifts(w, calls, Aggregator, t)
  {
    hide Run, Gifts, LeftBehind, ValidBook, Balance, Spare, HonestCall;
    RunAccounted(w, calls, t);
    HonestRunLeavesNothing(w, calls, t);
  }
}
