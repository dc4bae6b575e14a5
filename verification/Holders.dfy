// What every holder outside the contracts is paid and charged, over every run of the whole system.

module Holders {
  import opened AggregatorModel
  import opened Base
  import opened Custody
  import opened EscrowModel
  import opened Ledger
  import opened Orders
  import opened System
  import OrderRuns
  import Runs
  import Settlement
  import VaultModel

  /** Holder a is none of the contracts, and no venue on a route of this call unless it signs the call itself. */
  ghost predicate Bystander(call: Call, a: Address) {
    && a !in {Aggregator, Escrow, Vault}
    && match call.op
       case Fill(_, _, routes, _) => Settlement.Outside(routes, Escrow, a)
       case FillDca(_, routes, _) => Settlement.Outside(routes, Escrow, a)
       case UserSwap(user, _, _, routes, _) => Settlement.Outside(routes, user, a)
       case RestrictedSwap(user, _, _, routes, _) => Settlement.Outside(routes, user, a)
       case UserRoundTrip(user, _, _, _, legOut, legBack, _) => Settlement.Outside(legOut, user, a) && Settlement.Outside(legBack, user, a)
       case Lend(caller, _, _, _, legOut, legBack, _, _) => Settlement.Outside(legOut, caller, a) && Settlement.Outside(legBack, caller, a)
       case _ => true
  }

  /** Every account is a bystander of every call: only contracts are called as venues. */
  lemma AccountsStandBy(call: Call, a: Address)
    requires a.Account?
    ensures Bystander(call, a)
  {
  }

  /** What an event of the escrow says that holder a receives in token t, or, for a creation, hands over. */
  function Credit(b: Book, e: EscrowEvent, a: Address, t: Address): int {
    match e
    case LimitCreated(_, owner, tokenIn, _, amountIn, _, _) => -Settlement.When(owner == a && tokenIn == t, amountIn)
    case LimitFilled(id, owner, _, amountOut, _) => Settlement.When(owner == a && id in b.limits && b.limits[id].tokenOut == t, amountOut)
    case LimitCancelled(id, owner, refunded) => Settlement.When(owner == a && id in b.limits && b.limits[id].tokenIn == t, refunded)
    case LimitExpired(id, owner, refunded) => Settlement.When(owner == a && id in b.limits && b.limits[id].tokenIn == t, refunded)
    case DcaCreated(_, owner, tokenIn, _, amountIn, _, _, _, _, _) => -Settlement.When(owner == a && tokenIn == t, amountIn)
    case DcaFilled(id, owner, _, amountOut, _, _) => Settlement.When(owner == a && id in b.dcas && b.dcas[id].tokenOut == t, amountOut)
    case DcaCancelled(id, owner, refunded) => Settlement.When(owner == a && id in b.dcas && b.dcas[id].tokenIn == t, refunded)
    case DcaExpired(id, owner, refunded) => Settlement.When(owner == a && id in b.dcas && b.dcas[id].tokenIn == t, refunded)
  }

  /** The event is about an order of the book, and names its owner. */
  predicate Named(b: Book, e: EscrowEvent) {
    match e
    case LimitCreated(id, owner, _, _, _, _, _) => id in b.limits && owner == b.limits[id].owner
    case LimitFilled(id, owner, _, _, _) => id in b.limits && owner == b.limits[id].owner
    case LimitCancelled(id, owner, _) => id in b.limits && owner == b.limits[id].owner
    case LimitExpired(id, owner, _) => id in b.limits && owner == b.limits[id].owner
    case DcaCreated(id, owner, _, _, _, _, _, _, _, _) => id in b.dcas && owner == b.dcas[id].owner
    case DcaFilled(id, owner, _, _, _, _) => id in b.dcas && owner == b.dcas[id].owner
    case DcaCancelled(id, owner, _) => id in b.dcas && owner == b.dcas[id].owner
    case DcaExpired(id, owner, _) => id in b.dcas && owner == b.dcas[id].owner
  }

  /** All that a log says holder a received in token t, less what it handed over. */
  function Credits(b: Book, log: seq<Entry>, a: Address, t: Address): int {
    if log == [] then 0 else Credits(b, log[..|log| - 1], a, t) + Credit(b, log[|log| - 1].event, a, t)
  }

  /** One entry was added to the log, about an order of the book, and holder a was paid what it says. */
  ghost predicate Paid(w: World, w': World, now: uint32, a: Address, t: Address) {
    && |w'.book.log| == |w.book.log| + 1 && w'.book.log[..|w.book.log|] == w.book.log
    && w'.book.log[|w.book.log|].ledger == now && Named(w'.book, w'.book.log[|w.book.log|].event)
    && Balance(w'.chain, t, a) == Balance(w.chain, t, a) + Credit(w'.book, w'.book.log[|w.book.log|].event, a, t)
  }

  lemma LogGrew(w: World, w': World, now: uint32, e: EscrowEvent, a: Address, t: Address)
    requires w'.book.log == w.book.log + [Entry(now, e)] && Named(w'.book, e)
    requires Balance(w'.chain, t, a) == Balance(w.chain, t, a) + Credit(w'.book, e, a, t)
    ensures Paid(w, w', now, a, t)
  {
    hide Balance, Credit, Named;
  }

  lemma CreateLimitCallPays(w: World, call: Call, w': World, a: Address, t: Address)
    requires call.op.CreateLimit? && Attempt(w, call) == Ok(w') && a !in {Aggregator, Escrow, Vault}
    ensures Paid(w, w', call.now, a, t) && (a !in call.auth ==> Balance(w'.chain, t, a) == Balance(w.chain, t, a))
  {
    hide EscrowModel.CreateLimit, Transfer, Balance;
    var op := call.op;
    CreateLimitEffect(w.chain, w.book, call.auth, call.now, op.owner, op.tokenIn, op.tokenOut, op.amountIn, op.limit, op.expires,
                      w'.chain, w'.book);
    LogGrew(w, w', call.now, LimitCreated(w.book.nextLimit, op.owner, op.tokenIn, op.tokenOut, op.amountIn, op.limit, op.expires), a, t);
  }

  lemma CreateDcaCallPays(w: World, call: Call, w': World, a: Address, t: Address)
    requires call.op.CreateDca? && Attempt(w, call) == Ok(w') && a !in {Aggregator, Escrow, Vault}
    ensures Paid(w, w', call.now, a, t) && (a !in call.auth ==> Balance(w'.chain, t, a) == Balance(w.chain, t, a))
  {
    hide EscrowModel.CreateDca, Transfer, Balance;
    var op := call.op;
    CreateDcaEffect(w.chain, w.book, call.auth, call.now, op.owner, op.tokenIn, op.tokenOut, op.amountIn, op.chunk, op.interval,
                    op.start, op.minRate, op.expires, w'.chain, w'.book);
    LogGrew(w, w', call.now, DcaCreated(w.book.nextDca, op.owner, op.tokenIn, op.tokenOut, op.amountIn, op.chunk, op.interval,
                                        op.start, op.minRate, op.expires), a, t);
  }

  lemma LimitCallPays(w: World, call: Call, w': World, a: Address, t: Address)
    requires ValidBook(w.book) && (call.op.Fill? || call.op.Cancel? || call.op.Reclaim?) && Attempt(w, call) == Ok(w')
    requires Bystander(call, a)
    ensures Paid(w, w', call.now, a, t)
  {
    hide EscrowModel.Fill, CloseLimit, ValidBook, Balance, Settlement.Outside, SwapRestricted, Paid;
    var c, b, c', b' := w.chain, w.book, w'.chain, w'.book;
    var id := call.op.id;
    OrderRuns.CallKeepsOrders(w, call, id);
    match call.op {
      case Fill(_, amountIn, routes, minOut) =>
        FillPays(c, b, w.venues, call.now, id, amountIn, routes, minOut, call.replies, c', b', t, a);
        var o := b.limits[id];
        var out := SwapRestricted(c, w.venues, {Escrow}, Escrow, o.tokenIn, o.tokenOut, routes, minOut, call.replies).value.1;
        LogGrew(w, w', call.now, LimitFilled(id, o.owner, amountIn, out, o.remaining - amountIn), a, t);
      case Cancel(_) =>
        CloseLimitPays(c, b, call.now, id, Cancelled, c', b', t, a);
        LogGrew(w, w', call.now, LimitCancelled(id, b.limits[id].owner, b.limits[id].remaining), a, t);
      case Reclaim(_) =>
        CloseLimitPays(c, b, call.now, id, Expired, c', b', t, a);
        LogGrew(w, w', call.now, LimitExpired(id, b.limits[id].owner, b.limits[id].remaining), a, t);
    }
  }

  lemma CloseDcaCallPays(w: World, call: Call, w': World, a: Address, t: Address)
    requires ValidBook(w.book) && (call.op.CancelDca? || call.op.ReclaimDca?) && Attempt(w, call) == Ok(w') && Bystander(call, a)
    ensures Paid(w, w', call.now, a, t)
  {
    hide CloseDca, ValidBook, Balance, Paid;
    var id := call.op.id;
    OrderRuns.CallKeepsOrders(w, call, id);
    var status := if call.op.CancelDca? then Cancelled else Expired;
    CloseDcaPays(w.chain, w.book, call.now, id, status, w'.chain, w'.book, t, a);
    var o := w.book.dcas[id];
    var e := if call.op.CancelDca? then DcaCancelled(id, o.owner, o.remaining) else DcaExpired(id, o.owner, o.remaining);
    LogGrew(w, w', call.now, e, a, t);
  }

  lemma DcaCallPays(w: World, call: Call, w': World, a: Address, t: Address)
    requires ValidBook(w.book) && (call.op.FillDca? || call.op.CancelDca? || call.op.ReclaimDca?) && Attempt(w, call) == Ok(w')
    requires Bystander(call, a)
    ensures Paid(w, w', call.now, a, t)
  {
    hide EscrowModel.FillDca, CloseDca, ValidBook, Balance, Settlement.Outside, SwapRestricted, Paid;
    match call.op {
      case FillDca(id, routes, minOut) =>
        OrderRuns.CallKeepsOrders(w, call, id);
        FillDcaPays(w.chain, w.book, w.venues, call.now, id, routes, minOut, call.replies, w'.chain, w'.book, t, a);
        var o := w.book.dcas[id];
        var out := SwapRestricted(w.chain, w.venues, {Escrow}, Escrow, o.tokenIn, o.tokenOut, routes, minOut, call.replies).value.1;
        var spent := if o.remaining < o.chunk then o.remaining else o.chunk;
        LogGrew(w, w', call.now, DcaFilled(id, o.owner, spent, out, o.remaining - spent, w'.book.dcas[id].next), a, t);
      case _ => CloseDcaCallPays(w, call, w', a, t);
    }
  }

  /** Every call on an order pays each bystander exactly what the event it publishes says. */
  lemma OrderCallPays(w: World, call: Call, w': World, a: Address, t: Address)
    requires ValidBook(w.book) && WellSigned(call) && Runs.IsOrderOp(call.op) && Attempt(w, call) == Ok(w') && Bystander(call, a)
    ensures Paid(w, w', call.now, a, t)
  {
    hide Attempt, ValidBook, Paid, Bystander;
    NoContract(call, a);
    if call.op.CreateLimit? {
      CreateLimitCallPays(w, call, w', a, t);
    } else if call.op.CreateDca? {
      CreateDcaCallPays(w, call, w', a, t);
    } else if call.op.Fill? || call.op.Cancel? || call.op.Reclaim? {
      LimitCallPays(w, call, w', a, t);
    } else {
      DcaCallPays(w, call, w', a, t);
    }
  }

  lemma NoContract(call: Call, a: Address)
    requires Bystander(call, a)
    ensures a !in {Aggregator, Escrow, Vault}
  {
  }

  /** Orders stay in the book, with their owners and tokens. */
  ghost predicate TermsKept(b: Book, b': Book) {
    && (forall id :: id in b.limits ==>
          && id in b'.limits && b'.limits[id].owner == b.limits[id].owner
          && b'.limits[id].tokenIn == b.limits[id].tokenIn && b'.limits[id].tokenOut == b.limits[id].tokenOut)
    && (forall id :: id in b.dcas ==>
          && id in b'.dcas && b'.dcas[id].owner == b.dcas[id].owner
          && b'.dcas[id].tokenIn == b.dcas[id].tokenIn && b'.dcas[id].tokenOut == b.dcas[id].tokenOut)
  }

  lemma CallKeepsTerms(w: World, call: Call)
    requires ValidBook(w.book)
    ensures TermsKept(w.book, Exec(w, call).book)
  {
    hide Exec, ValidBook;
    forall id: uint64
      ensures OrderRuns.KeepsLimit(w.book, Exec(w, call).book, id) && OrderRuns.KeepsDca(w.book, Exec(w, call).book, id)
    {
      OrderRuns.CallKeepsOrders(w, call, id);
    }
    assert forall id: uint64 :: id in w.book.limits ==> OrderRuns.KeepsLimit(w.book, Exec(w, call).book, id);
    assert forall id: uint64 :: id in w.book.dcas ==> OrderRuns.KeepsDca(w.book, Exec(w, call).book, id);
  }

  // ----- Trades and payments -----

  /** What holder a's own trade brings it in token t. */
  ghost function TradeGain(w: World, call: Call, a: Address, t: Address): int {
    match call.op
    case UserSwap(user, tokenIn, tokenOut, routes, minOut) =>
      SwapGain(AggregatorModel.Swap(w.chain, call.auth, user, tokenIn, tokenOut, routes, minOut, call.replies), user, tokenIn, tokenOut,
               routes, a, t)
    case RestrictedSwap(user, tokenIn, tokenOut, routes, minOut) =>
      SwapGain(SwapRestricted(w.chain, w.venues, call.auth, user, tokenIn, tokenOut, routes, minOut, call.replies), user, tokenIn,
               tokenOut, routes, a, t)
    case UserRoundTrip(user, base, bridge, amountIn, legOut, legBack, minOut) =>
      var r := RoundTrip(w.chain, call.auth, user, base, bridge, amountIn, legOut, legBack, minOut, call.replies);
      if r.Ok? then Settlement.When(a == user && t == base, r.value.1 - amountIn) else 0
    case _ => 0
  }

  ghost function SwapGain(r: Result<(Chain, int128)>, user: Address, tokenIn: Address, tokenOut: Address, routes: seq<SubRoute>,
                          a: Address, t: Address): int {
    if r.Ok? then Settlement.When(a == user && t == tokenOut, r.value.1) - Settlement.When(a == user && t == tokenIn, Sum(Amounts(routes)))
    else 0
  }

  /** What holder a pays in token t, outside orders and trades. */
  function Charged(call: Call, a: Address, t: Address): int {
    match call.op
    case Pay(token, from, _, amount) => Settlement.When(token == t && from == a, amount)
    case Deposit(from, token, amount) => Settlement.When(token == t && from == a, amount)
    case _ => 0
  }

  /** One call, whatever it is, seen by a holder who stands by: what it gains, and that it loses nothing without signing. */
  ghost predicate HolderKept(w: World, call: Call, w': World, credit: int, a: Address, t: Address) {
    && Balance(w'.chain, t, a) == Balance(w.chain, t, a) + credit + TradeGain(w, call, a, t) + Runs.Received(call, a, t)
                                  - Charged(call, a, t)
    && (a !in call.auth ==> Balance(w'.chain, t, a) >= Balance(w.chain, t, a))
  }

  lemma SwapCallPays(w: World, call: Call, w': World, a: Address, t: Address)
    requires (call.op.UserSwap? || call.op.RestrictedSwap?) && Attempt(w, call) == Ok(w') && WellSigned(call) && Bystander(call, a)
    ensures HolderKept(w, call, w', 0, a, t)
  {
    hide AggregatorModel.Swap, SwapRestricted, Balance, Settlement.Outside, Amounts, Sum;
    var op := call.op;
    if op.RestrictedSwap? {
      Runs.RestrictedIsSwap(w.chain, w.venues, call.auth, op.user, op.tokenIn, op.tokenOut, op.routes, op.minOut, call.replies);
    }
    var out := AggregatorModel.Swap(w.chain, call.auth, op.user, op.tokenIn, op.tokenOut, op.routes, op.minOut, call.replies).value.1;
    Runs.SwapNeedsSignature(w.chain, call.auth, op.user, op.tokenIn, op.tokenOut, op.routes, op.minOut, call.replies);
    Settlement.SwapMoves(w.chain, call.auth, op.user, op.tokenIn, op.tokenOut, op.routes, op.minOut, call.replies, w'.chain, out, t, a);
  }

  lemma RoundTripCallPays(w: World, call: Call, w': World, a: Address, t: Address)
    requires call.op.UserRoundTrip? && Attempt(w, call) == Ok(w') && WellSigned(call) && Bystander(call, a)
    ensures HolderKept(w, call, w', 0, a, t)
  {
    hide RoundTrip, Balance, Settlement.Outside;
    var op := call.op;
    var out := RoundTrip(w.chain, call.auth, op.user, op.base, op.bridge, op.amountIn, op.legOut, op.legBack, op.minOut,
                         call.replies).value.1;
    Runs.RoundTripNeedsSignature(w.chain, call.auth, op.user, op.base, op.bridge, op.amountIn, op.legOut, op.legBack, op.minOut,
                                 call.replies);
    Settlement.RoundTripMoves(w.chain, call.auth, op.user, op.base, op.bridge, op.amountIn, op.legOut, op.legBack, op.minOut,
                              call.replies, w'.chain, out, t, a);
  }

  lemma LendCallPays(w: World, call: Call, w': World, a: Address, t: Address)
    requires call.op.Lend? && Attempt(w, call) == Ok(w') && WellSigned(call) && Bystander(call, a)
    ensures HolderKept(w, call, w', 0, a, t)
  {
    hide VaultModel.ExecuteRoundTrip, Balance, Settlement.Outside;
    var op := call.op;
    Runs.LendingNeedsSignature(w, call);
    var out := VaultModel.ExecuteRoundTrip(w.chain, w.callers, call.auth, call.now, op.caller, op.base, op.bridge, op.amountIn, op.legOut,
                                           op.legBack, op.minOut, op.allowanceExpiry, call.replies).value.1;
    VaultModel.LendingMoves(w.chain, w.callers, call.auth, call.now, op.caller, op.base, op.bridge, op.amountIn, op.legOut, op.legBack,
                            op.minOut, op.allowanceExpiry, call.replies, w'.chain, out, t, a);
  }

  /** What a payment does to a holder. */
  lemma PaymentMoves(c: Chain, token: Address, from: Address, to: Address, amount: int, c': Chain, a: Address, t: Address)
    requires Transfer(c, token, from, to, amount) == Ok(c')
    ensures Balance(c', t, a) == Balance(c, t, a) + Settlement.When(token == t && to == a, amount)
                                 - Settlement.When(token == t && from == a, amount)
    ensures from != a ==> Balance(c', t, a) >= Balance(c, t, a)
  {
    hide Transfer, Balance;
  }

  lemma PlainCallTradesNothing(w: World, call: Call, a: Address, t: Address)
    requires !Runs.IsTradeOp(call.op)
    ensures TradeGain(w, call, a, t) == 0
  {
  }

  lemma PaymentKeepsHolder(w: World, call: Call, w': World, token: Address, from: Address, to: Address, amount: int, a: Address, t: Address)
    requires Transfer(w.chain, token, from, to, amount) == Ok(w'.chain) && (from == a ==> a in call.auth)
    requires Runs.Received(call, a, t) == Settlement.When(token == t && to == a, amount)
    requires Charged(call, a, t) == Settlement.When(token == t && from == a, amount)
    requires TradeGain(w, call, a, t) == 0
    ensures HolderKept(w, call, w', 0, a, t)
  {
    hide Transfer, Balance, TradeGain, Runs.Received, Charged, Settlement.When;
    PaymentMoves(w.chain, token, from, to, amount, w'.chain, a, t);
  }

  lemma HolderUntouched(w: World, call: Call, w': World, a: Address, t: Address)
    requires (call.op.SetCaller? || call.op.SetVenue?) && w'.chain == w.chain
    ensures HolderKept(w, call, w', 0, a, t)
  {
  }

  lemma PlainCallPays(w: World, call: Call, w': World, a: Address, t: Address)
    requires !Runs.IsOrderOp(call.op) && !Runs.IsTradeOp(call.op) && Attempt(w, call) == Ok(w') && Bystander(call, a)
    ensures HolderKept(w, call, w', 0, a, t)
  {
    hide Attempt, Transfer, Balance, Bystander, TradeGain, HolderKept;
    NoContract(call, a);
    PlainCallTradesNothing(w, call, a, t);
    Runs.PlainCallEffect(w, call, w');
    var op := call.op;
    match op {
      case Pay(token, from, to, amount) => PaymentKeepsHolder(w, call, w', token, from, to, amount, a, t);
      case Deposit(from, token, amount) => PaymentKeepsHolder(w, call, w', token, from, Vault, amount, a, t);
      case Withdraw(token, to, amount) => PaymentKeepsHolder(w, call, w', token, Vault, to, amount, a, t);
      case _ => HolderUntouched(w, call, w', a, t);
    }
  }

  lemma OrderCallKeepsHolder(w: World, call: Call, w': World, a: Address, t: Address)
    requires ValidBook(w.book) && WellSigned(call) && Runs.IsOrderOp(call.op) && Attempt(w, call) == Ok(w') && Bystander(call, a)
    ensures Paid(w, w', call.now, a, t)
    ensures HolderKept(w, call, w', Credit(w'.book, w'.book.log[|w.book.log|].event, a, t), a, t)
  {
    hide Attempt, ValidBook, Balance, Bystander;
    OrderCallPays(w, call, w', a, t);
    if call.op.CreateLimit? {
      NoContract(call, a);
      CreateLimitCallPays(w, call, w', a, t);
    } else if call.op.CreateDca? {
      NoContract(call, a);
      CreateDcaCallPays(w, call, w', a, t);
    } else {
      NoCreation(w, call, w');
    }
  }

  /** Only a creation publishes a creation. */
  lemma NoCreation(w: World, call: Call, w': World)
    requires ValidBook(w.book) && Runs.IsOrderOp(call.op) && !call.op.CreateLimit? && !call.op.CreateDca? && Attempt(w, call) == Ok(w')
    ensures |w'.book.log| == |w.book.log| + 1 && !IsCreation(w'.book.log[|w.book.log|].event)
  {
    hide SwapForOwner, Transfer, RequiredMinOut, RoutedFrom, ValidBook;
  }

  // ----- Runs -----

  ghost predicate AllNamed(b: Book, log: seq<Entry>) {
    forall j :: 0 <= j < |log| ==> Named(b, log[j].event)
  }

  lemma {:induction false} CreditsStay(b: Book, b': Book, log: seq<Entry>, a: Address, t: Address)
    requires TermsKept(b, b') && AllNamed(b, log)
    ensures Credits(b', log, a, t) == Credits(b, log, a, t)
  {
    if log == [] {
    } else {
      CreditsStay(b, b', log[..|log| - 1], a, t);
      assert Named(b, log[|log| - 1].event);
    }
  }

  ghost function Trades(w: World, calls: seq<Call>, a: Address, t: Address): int {
    Runs.Total(w, calls, (before, call) => TradeGain(before, call, a, t))
  }

  ghost function Charges(w: World, calls: seq<Call>, a: Address, t: Address): int {
    Runs.Total(w, calls, (_, call) => Charged(call, a, t))
  }

  ghost predicate StandsBy(calls: seq<Call>, a: Address) {
    forall i :: 0 <= i < |calls| ==> Bystander(calls[i], a)
  }

  lemma CallKeepsHolder(w: World, call: Call, a: Address, t: Address)
    requires ValidBook(w.book) && AllNamed(w.book, w.book.log) && WellSigned(call) && Bystander(call, a) && Attempt(w, call).Ok?
    ensures var w' := Exec(w, call);
            HolderKept(w, call, w', Credits(w'.book, w'.book.log, a, t) - Credits(w.book, w.book.log, a, t), a, t)
  {
    hide Attempt, ValidBook, Balance, Bystander, Credit, HolderKept, Named;
    var w' := Exec(w, call);
    if Runs.IsOrderOp(call.op) {
      OrderCallKeepsHolder(w, call, w', a, t);
      CallKeepsTerms(w, call);
      CreditsStay(w.book, w'.book, w.book.log, a, t);
      assert w'.book.log[..|w'.book.log| - 1] == w.book.log;
    } else {
      Runs.OtherCallKeepsBook(w, call, w');
      if call.op.UserSwap? || call.op.RestrictedSwap? {
        SwapCallPays(w, call, w', a, t);
      } else if call.op.UserRoundTrip? {
        RoundTripCallPays(w, call, w', a, t);
      } else if call.op.Lend? {
        LendCallPays(w, call, w', a, t);
      } else {
        PlainCallPays(w, call, w', a, t);
      }
    }
  }

  lemma CallNames(w: World, call: Call)
    requires ValidBook(w.book) && AllNamed(w.book, w.book.log) && WellSigned(call)
    ensures var b' := Exec(w, call).book; AllNamed(b', b'.log)
  {
    hide Attempt, ValidBook, Balance, Credit;
    if Attempt(w, call).Ok? {
      var w' := Exec(w, call);
      if Runs.IsOrderOp(call.op) {
        var someone := Account(0);
        AccountsStandBy(call, someone);
        OrderCallPays(w, call, w', someone, someone);
        CallKeepsTerms(w, call);
        NamesStay(w.book, w'.book, w.book.log);
      } else {
        Runs.OtherCallKeepsBook(w, call, w');
      }
    }
  }

  lemma NamesStay(b: Book, b': Book, log: seq<Entry>)
    requires TermsKept(b, b') && AllNamed(b, log)
    ensures AllNamed(b', log)
  {
    forall j | 0 <= j < |log|
      ensures Named(b', log[j].event)
    {
      assert Named(b, log[j].event);
    }
  }

  /** In any run every entry of the log is about an order of the book, and names its owner. */
  lemma {:induction false} RunNames(w: World, calls: seq<Call>)
    requires Initial(w) && AllSigned(calls)
    ensures var b := Run(w, calls).book; ValidBook(b) && AllNamed(b, b.log)
  {
    hide Exec, ValidBook, WellSigned, Named;
    if calls == [] {
      OrderRuns.EmptyBook(w.book);
    } else {
      var front, call := calls[..|calls| - 1], calls[|calls| - 1];
      RunNames(w, front);
      assert WellSigned(call);
      CallNames(Run(w, front), call);
      OrderRuns.RunRecorded(w, calls);
    }
  }

  /** The whole account of every holder outside the contracts, in any run: its balance in each token is what it was, plus exactly
      what the escrow's log says it received less what it put into orders, plus the gains of its own trades and what it was paid,
      less what it paid. */
  lemma {:induction false} HolderAccounted(w: World, calls: seq<Call>, a: Address, t: Address)
    requires Initial(w) && AllSigned(calls) && StandsBy(calls, a)
    ensures var w' := Run(w, calls);
            Balance(w'.chain, t, a) == Balance(w.chain, t, a) + Credits(w'.book, w'.book.log, a, t) + Trades(w, calls, a, t)
                                       + Runs.Gifts(w, calls, a, t) - Charges(w, calls, a, t)
  {
    hide Attempt, ValidBook, AllNamed, Balance, Bystander, WellSigned, TradeGain, Runs.Received, Charged;
    if calls == [] {
    } else {
      var front, call := calls[..|calls| - 1], calls[|calls| - 1];
      HolderAccounted(w, front, a, t);
      RunNames(w, front);
      assert WellSigned(call) && Bystander(call, a);
      if Attempt(Run(w, front), call).Ok? {
        hide Credits;
        CallKeepsHolder(Run(w, front), call, a, t);
      }
    }
  }

  /** Nobody loses anything without signing: over any run in which holder a signs no call, its balance never falls. */
  lemma {:induction false} UnsignedNeverLoses(w: World, calls: seq<Call>, a: Address, t: Address)
    requires Initial(w) && AllSigned(calls) && StandsBy(calls, a) && forall i :: 0 <= i < |calls| ==> a !in calls[i].auth
    ensures Balance(Run(w, calls).chain, t, a) >= Balance(w.chain, t, a)
  {
    hide Attempt, ValidBook, AllNamed, Balance, Bystander, WellSigned, Credits, TradeGain;
    if calls == [] {
    } else {
      var front, call := calls[..|calls| - 1], calls[|calls| - 1];
      UnsignedNeverLoses(w, front, a, t);
      RunNames(w, front);
      assert WellSigned(call) && Bystander(call, a);
      if Attempt(Run(w, front), call).Ok? {
        CallKeepsHolder(Run(w, front), call, a, t);
      }
    }
  }

  // ----- Order by order -----

  /** The owner and tokens of an order of the book. */
  ghost predicate Terms(b: Book, k: OrderKey, owner: Address, tokenIn: Address, tokenOut: Address) {
    match k
    case LimitKey(id) =>
      id in b.limits && (owner, tokenIn, tokenOut) == (b.limits[id].owner, b.limits[id].tokenIn, b.limits[id].tokenOut)
    case DcaKey(id) =>
      id in b.dcas && (owner, tokenIn, tokenOut) == (b.dcas[id].owner, b.dcas[id].tokenIn, b.dcas[id].tokenOut)
  }

  function FilledIn(e: Entry): nat {
    if FillIn(e) == [] then 0 else FillIn(e)[0].amountOut
  }

  lemma LimitEntryCredit(b: Book, e: Entry, id: uint64, a: Address, t: Address)
    requires id in b.limits && KeyOf(e.event) == LimitKey(id) && Named(b, e.event)
    ensures var o := b.limits[id];
            Credit(b, e.event, a, t) ==
            if e.event.LimitCreated? then -Settlement.When(a == o.owner && t == e.event.tokenIn, e.event.amountIn)
            else if e.event.LimitFilled? then Settlement.When(a == o.owner && t == o.tokenOut, FilledIn(e))
            else Settlement.When(a == o.owner && t == o.tokenIn, RefundIn(e.event))
    ensures e.event.LimitFilled? ==> RefundIn(e.event) == 0
    ensures !e.event.LimitFilled? ==> FilledIn(e) == 0
    ensures e.event.LimitCreated? ==> RefundIn(e.event) == 0
  {
  }

  lemma DcaEntryCredit(b: Book, e: Entry, id: uint64, a: Address, t: Address)
    requires id in b.dcas && KeyOf(e.event) == DcaKey(id) && Named(b, e.event)
    ensures var o := b.dcas[id];
            Credit(b, e.event, a, t) ==
            if e.event.DcaCreated? then -Settlement.When(a == o.owner && t == e.event.tokenIn, e.event.amountIn)
            else if e.event.DcaFilled? then Settlement.When(a == o.owner && t == o.tokenOut, FilledIn(e))
            else Settlement.When(a == o.owner && t == o.tokenIn, RefundIn(e.event))
    ensures e.event.DcaFilled? ==> RefundIn(e.event) == 0
    ensures !e.event.DcaFilled? ==> FilledIn(e) == 0
    ensures e.event.DcaCreated? ==> RefundIn(e.event) == 0
  {
  }

  lemma EntryCredit(b: Book, e: Entry, k: OrderKey, owner: Address, tokenIn: Address, tokenOut: Address, a: Address, t: Address)
    requires Terms(b, k, owner, tokenIn, tokenOut) && KeyOf(e.event) == k && Named(b, e.event)
    ensures !IsCreation(e.event) ==>
              Credit(b, e.event, a, t) == Settlement.When(a == owner && t == tokenOut, FilledIn(e))
                                          + Settlement.When(a == owner && t == tokenIn, RefundIn(e.event))
    ensures IsCreation(e.event) && e.event.tokenIn == tokenIn ==>
              && Credit(b, e.event, a, t) == -Settlement.When(a == owner && t == tokenIn, InitialOf([e]))
              && FilledIn(e) == 0 && RefundIn(e.event) == 0
  {
    hide Credit, Named, FilledIn, RefundIn;
    match k {
      case LimitKey(id) => LimitEntryCredit(b, e, id, a, t);
      case DcaKey(id) => DcaEntryCredit(b, e, id, a, t);
    }
  }

  lemma HistoryStep(h: seq<Entry>)
    requires CreatedOnce(h) && |h| > 1
    ensures var front, last := h[..|h| - 1], h[|h| - 1];
            && CreatedOnce(front) && front[0] == h[0] && !IsCreation(last.event) && InitialOf(h) == InitialOf(front)
            && Received(Fills(h)) == Received(Fills(front)) + FilledIn(last)
            && Refunded(h) == Refunded(front) + RefundIn(last.event)
  {
    hide IsCreation, FillIn, FilledIn, RefundIn;
    LastFill(Fills(h[..|h| - 1]), h[|h| - 1]);
  }

  lemma FirstStep(b: Book, h: seq<Entry>, a: Address, t: Address)
    requires |h| == 1
    ensures Credits(b, h, a, t) == Credit(b, h[0].event, a, t)
    ensures Received(Fills(h)) == FilledIn(h[0]) && Refunded(h) == RefundIn(h[0].event)
  {
    hide Credit, FillIn, FilledIn, RefundIn;
    NothingFirst(b, h[..0], a, t);
    LastFill(Fills(h[..0]), h[0]);
    assert h[..|h| - 1] == h[..0];
  }

  lemma StartsWithCreation(h: seq<Entry>)
    requires CreatedOnce(h)
    ensures h != [] && IsCreation(h[0].event)
  {
  }

  /** The entries of one order credit its owner with what they say the order received and was refunded, less what it was
      created with. */
  lemma {:induction false} OrderCredits(b: Book, h: seq<Entry>, k: OrderKey, owner: Address, tokenIn: Address, tokenOut: Address,
                                        a: Address, t: Address)
    requires CreatedOnce(h) && AllNamed(b, h) && (forall j :: 0 <= j < |h| ==> KeyOf(h[j].event) == k)
    requires Terms(b, k, owner, tokenIn, tokenOut) && h[0].event.tokenIn == tokenIn
    ensures Credits(b, h, a, t) == Settlement.When(a == owner && t == tokenOut, Received(Fills(h)))
                                   + Settlement.When(a == owner && t == tokenIn, Refunded(h) - InitialOf(h))
  {
    hide Credit, Named, KeyOf, Terms, IsCreation, RefundIn, FillIn, FilledIn, Fills, Refunded, InitialOf, CreatedOnce;
    StartsWithCreation(h);
    var front, last := h[..|h| - 1], h[|h| - 1];
    EntryCredit(b, last, k, owner, tokenIn, tokenOut, a, t);
    if |h| > 1 {
      HistoryStep(h);
      OrderCredits(b, front, k, owner, tokenIn, tokenOut, a, t);
    } else {
      assert h == [last];
      hide Credits;
      FirstStep(b, h, a, t);
    }
  }

  lemma NothingFirst(b: Book, h: seq<Entry>, a: Address, t: Address)
    requires h == []
    ensures Credits(b, h, a, t) == 0 && Fills(h) == [] && Received(Fills(h)) == 0 && Refunded(h) == 0
  {
  }

  lemma LastFill(f: seq<FillRecord>, e: Entry)
    ensures Received(f + FillIn(e)) == Received(f) + FilledIn(e)
  {
    if FillIn(e) == [] {
      assert f + [] == f;
    } else {
      assert (f + FillIn(e))[..|f|] == f;
    }
  }

  lemma {:induction false} HistoryNames(b: Book, log: seq<Entry>, k: OrderKey)
    requires AllNamed(b, log)
    ensures AllNamed(b, History(log, k)) && forall j :: 0 <= j < |History(log, k)| ==> KeyOf(History(log, k)[j].event) == k
  {
    hide Named, KeyOf;
    if log == [] {
    } else {
      HistoryNames(b, log[..|log| - 1], k);
    }
  }

  /** In any run: what the log says a limit order received was paid to its owner, in the token it asked for, its refunds in the
      token it put in, and nothing of it to anybody else. */
  lemma LimitOwnerIsPaid(w: World, calls: seq<Call>, id: uint64, a: Address, t: Address)
    requires Initial(w) && AllSigned(calls) && id in Run(w, calls).book.limits
    ensures var b := Run(w, calls).book;
            var o, h := b.limits[id], History(b.log, LimitKey(id));
            Credits(b, h, a, t) == Settlement.When(a == o.owner && t == o.tokenOut, Received(Fills(h)))
                                   + Settlement.When(a == o.owner && t == o.tokenIn, Refunded(h) - InitialOf(h))
  {
    hide Run, History, Named, Credits, Fills, Refunded, KeyOf, Narrated, FairFills, ExpiredLate, Conserved;
    OrderRuns.RunRecorded(w, calls);
    RunNames(w, calls);
    var b := Run(w, calls).book;
    var o, h := b.limits[id], History(b.log, LimitKey(id));
    assert LimitRecorded(h, id, o);
    HistoryNames(b, b.log, LimitKey(id));
    OrderCredits(b, h, LimitKey(id), o.owner, o.tokenIn, o.tokenOut, a, t);
  }

  lemma DcaOwnerIsPaid(w: World, calls: seq<Call>, id: uint64, a: Address, t: Address)
    requires Initial(w) && AllSigned(calls) && id in Run(w, calls).book.dcas
    ensures var b := Run(w, calls).book;
            var o, h := b.dcas[id], History(b.log, DcaKey(id));
            Credits(b, h, a, t) == Settlement.When(a == o.owner && t == o.tokenOut, Received(Fills(h)))
                                   + Settlement.When(a == o.owner && t == o.tokenIn, Refunded(h) - InitialOf(h))
  {
    hide Run, History, Named, Credits, Fills, Refunded, KeyOf, Narrated, FairFills, ExpiredLate, Conserved, Paced, Rising;
    OrderRuns.RunRecorded(w, calls);
    RunNames(w, calls);
    var b := Run(w, calls).book;
    var o, h := b.dcas[id], History(b.log, DcaKey(id));
    assert DcaRecorded(h, id, o);
    HistoryNames(b, b.log, DcaKey(id));
    OrderCredits(b, h, DcaKey(id), o.owner, o.tokenIn, o.tokenOut, a, t);
  }
}
