// Who may change an order, the registries and the vault's balances, call by call.

module Rights {
  import opened AggregatorModel
  import opened Base
  import opened Custody
  import opened EscrowModel
  import opened Ledger
  import opened System
  import Runs
  import VaultModel

  lemma FillMoves(c: Chain, b: Book, venues: set<(uint32, Address)>, now: uint32, id: uint64, amountIn: int128,
                  routes: seq<SubRoute>, minOut: int128, replies: seq<Reply>)
    requires EscrowModel.Fill(c, b, venues, now, id, amountIn, routes, minOut, replies).Ok?
    ensures id in b.limits
    ensures var o, b' := b.limits[id], EscrowModel.Fill(c, b, venues, now, id, amountIn, routes, minOut, replies).value.1;
            && o.status.Open? && now < o.expires && 0 < amountIn <= o.remaining && b'.dcas == b.dcas
            && b'.limits == b.limits[id := o.(remaining := o.remaining - amountIn,
                                              status := if o.remaining == amountIn then Filled else Open)]
  {
    hide SwapForOwner, RoutedFrom, RequiredMinOut;
  }

  lemma FillDcaMoves(c: Chain, b: Book, venues: set<(uint32, Address)>, now: uint32, id: uint64, routes: seq<SubRoute>,
                     minOut: int128, replies: seq<Reply>)
    requires EscrowModel.FillDca(c, b, venues, now, id, routes, minOut, replies).Ok?
    ensures id in b.dcas
    ensures var o, b' := b.dcas[id], EscrowModel.FillDca(c, b, venues, now, id, routes, minOut, replies).value.1;
            var due := if o.remaining < o.chunk then o.remaining else o.chunk;
            && o.status.Open? && o.next <= now < o.expires && b'.limits == b.limits
            && b'.dcas == b.dcas[id := if o.remaining == due then o.(remaining := 0, status := Filled)
                                       else o.(remaining := o.remaining - due,
                                               next := if now + o.interval > 0xFFFF_FFFF then 0xFFFF_FFFF else now + o.interval)]
  {
    hide SwapForOwner, RoutedFrom, RequiredMinOut;
  }

  lemma CloseLimitMoves(c: Chain, b: Book, now: uint32, id: uint64, status: OrderStatus)
    requires id in b.limits && CloseLimit(c, b, now, id, status).Ok?
    ensures var b' := CloseLimit(c, b, now, id, status).value.1;
            b'.dcas == b.dcas && b'.limits == b.limits[id := b.limits[id].(remaining := 0, status := status)]
  {
    hide Transfer;
  }

  lemma CloseDcaMoves(c: Chain, b: Book, now: uint32, id: uint64, status: OrderStatus)
    requires id in b.dcas && CloseDca(c, b, now, id, status).Ok?
    ensures var b' := CloseDca(c, b, now, id, status).value.1;
            b'.limits == b.limits && b'.dcas == b.dcas[id := b.dcas[id].(remaining := 0, status := status)]
  {
    hide Transfer;
  }

  /** The books a call on orders leads to. */
  lemma OrderCallMoves(w: World, call: Call)
    requires ValidBook(w.book) && Runs.IsOrderOp(call.op) && Attempt(w, call).Ok?
    ensures var b, b' := w.book, Exec(w, call).book;
            match call.op
            case CreateLimit(_, _, _, _, _, _) =>
              b'.dcas == b.dcas && b.nextLimit in b'.limits && b'.limits == b.limits[b.nextLimit := b'.limits[b.nextLimit]]
            case CreateDca(_, _, _, _, _, _, _, _, _) =>
              b'.limits == b.limits && b.nextDca in b'.dcas && b'.dcas == b.dcas[b.nextDca := b'.dcas[b.nextDca]]
            case _ => true
  {
    hide EscrowModel.CreateLimit, EscrowModel.CreateDca;
    var op, w' := call.op, Exec(w, call);
    if op.CreateLimit? {
      CreateLimitEffect(w.chain, w.book, call.auth, call.now, op.owner, op.tokenIn, op.tokenOut, op.amountIn, op.limit, op.expires,
                        w'.chain, w'.book);
    } else if op.CreateDca? {
      CreateDcaEffect(w.chain, w.book, call.auth, call.now, op.owner, op.tokenIn, op.tokenOut, op.amountIn, op.chunk, op.interval,
                      op.start, op.minRate, op.expires, w'.chain, w'.book);
    }
  }

  /** Every way an order changes: a fill before its expiry, a cancel its owner signed, or a reclaim after its expiry. */
  lemma LimitOrderMoves(w: World, call: Call, id: uint64)
    requires ValidBook(w.book) && id in w.book.limits
    ensures var b' := Exec(w, call).book;
            && id in b'.limits
            && var o, o' := w.book.limits[id], b'.limits[id];
               o' != o ==>
                 && o.status.Open?
                 && match call.op
                    case Fill(i, amountIn, _, _) =>
                      && i == id && call.now < o.expires && 0 < amountIn <= o.remaining
                      && o' == o.(remaining := o.remaining - amountIn, status := if o.remaining == amountIn then Filled else Open)
                    case Cancel(i) => i == id && o.owner in call.auth && o' == o.(remaining := 0, status := Cancelled)
                    case Reclaim(i) => i == id && call.now > o.expires && o' == o.(remaining := 0, status := Expired)
                    case _ => false
  {
    hide EscrowModel.CreateLimit, EscrowModel.CreateDca, EscrowModel.Fill, EscrowModel.FillDca, CloseLimit, CloseDca, Swap,
         SwapRestricted, RoundTrip, VaultModel.ExecuteRoundTrip, VaultModel.Deposit, VaultModel.AdminWithdraw, Transfer, ValidBook;
    NextIdsFree(w.book);
    if Attempt(w, call).Ok? {
      var c, b := w.chain, w.book;
      match call.op {
        case CreateLimit(_, _, _, _, _, _) => OrderCallMoves(w, call);
        case CreateDca(_, _, _, _, _, _, _, _, _) => OrderCallMoves(w, call);
        case Fill(i, amountIn, routes, minOut) => FillMoves(c, b, w.venues, call.now, i, amountIn, routes, minOut, call.replies);
        case FillDca(i, routes, minOut) => FillDcaMoves(c, b, w.venues, call.now, i, routes, minOut, call.replies);
        case Cancel(i) => CloseLimitMoves(c, b, call.now, i, Cancelled);
        case Reclaim(i) => CloseLimitMoves(c, b, call.now, i, Expired);
        case CancelDca(i) => CloseDcaMoves(c, b, call.now, i, Cancelled);
        case ReclaimDca(i) => CloseDcaMoves(c, b, call.now, i, Expired);
        case _ => Runs.OtherCallKeepsBook(w, call, Exec(w, call));
      }
    }
  }

  lemma DcaOrderMoves(w: World, call: Call, id: uint64)
    requires ValidBook(w.book) && id in w.book.dcas
    ensures var b' := Exec(w, call).book;
            && id in b'.dcas
            && var o, o' := w.book.dcas[id], b'.dcas[id];
               o' != o ==>
                 && o.status.Open?
                 && match call.op
                    case FillDca(i, _, _) =>
                      var due := if o.remaining < o.chunk then o.remaining else o.chunk;
                      && i == id && o.next <= call.now < o.expires
                      && o' == if o.remaining == due then o.(remaining := 0, status := Filled)
                               else o.(remaining := o.remaining - due,
                                       next := if call.now + o.interval > 0xFFFF_FFFF then 0xFFFF_FFFF else call.now + o.interval)
                    case CancelDca(i) => i == id && o.owner in call.auth && o' == o.(remaining := 0, status := Cancelled)
                    case ReclaimDca(i) => i == id && call.now > o.expires && o' == o.(remaining := 0, status := Expired)
                    case _ => false
  {
    hide EscrowModel.CreateLimit, EscrowModel.CreateDca, EscrowModel.Fill, EscrowModel.FillDca, CloseLimit, CloseDca, Swap,
         SwapRestricted, RoundTrip, VaultModel.ExecuteRoundTrip, VaultModel.Deposit, VaultModel.AdminWithdraw, Transfer, ValidBook;
    NextIdsFree(w.book);
    if Attempt(w, call).Ok? {
      var c, b := w.chain, w.book;
      match call.op {
        case CreateLimit(_, _, _, _, _, _) => OrderCallMoves(w, call);
        case CreateDca(_, _, _, _, _, _, _, _, _) => OrderCallMoves(w, call);
        case Fill(i, amountIn, routes, minOut) => FillMoves(c, b, w.venues, call.now, i, amountIn, routes, minOut, call.replies);
        case FillDca(i, routes, minOut) => FillDcaMoves(c, b, w.venues, call.now, i, routes, minOut, call.replies);
        case Cancel(i) => CloseLimitMoves(c, b, call.now, i, Cancelled);
        case Reclaim(i) => CloseLimitMoves(c, b, call.now, i, Expired);
        case CancelDca(i) => CloseDcaMoves(c, b, call.now, i, Cancelled);
        case ReclaimDca(i) => CloseDcaMoves(c, b, call.now, i, Expired);
        case _ => Runs.OtherCallKeepsBook(w, call, Exec(w, call));
      }
    }
  }

  /** Only the administrator changes the registries, one entry at a time, and only the administrator's withdrawals lower a balance of
      the vault. */
  lemma AdminOnly(w: World, call: Call, t: Address)
    requires ValidBook(w.book) && WellSigned(call)
    ensures var w' := Exec(w, call);
            && w'.venues == (match call.op
                             case SetVenue(d, dexId, allowed) =>
                               if !call.isAdmin then w.venues
                               else if allowed then w.venues + {(DexTag(d), dexId)} else w.venues - {(DexTag(d), dexId)}
                             case _ => w.venues)
            && w'.callers == (match call.op
                              case SetCaller(caller, allowed) =>
                                if !call.isAdmin then w.callers
                                else if allowed then w.callers + {caller} else w.callers - {caller}
                              case _ => w.callers)
            && (Balance(w'.chain, t, Vault) < Balance(w.chain, t, Vault) ==> call.op.Withdraw? && call.isAdmin && call.op.token == t)
  {
    Registries(w, call);
    if Attempt(w, call).Ok? {
      hide Attempt, ValidBook, Balance, Custody.Spare;
      Runs.CallAccounted(w, call, t);
      PaidIsPositive(w, call);
    }
  }

  lemma Registries(w: World, call: Call)
    ensures var w' := Exec(w, call);
            && w'.venues == (match call.op
                             case SetVenue(d, dexId, allowed) =>
                               if !call.isAdmin then w.venues
                               else if allowed then w.venues + {(DexTag(d), dexId)} else w.venues - {(DexTag(d), dexId)}
                             case _ => w.venues)
            && w'.callers == (match call.op
                              case SetCaller(caller, allowed) =>
                                if !call.isAdmin then w.callers
                                else if allowed then w.callers + {caller} else w.callers - {caller}
                              case _ => w.callers)
  {
    hide Swap, SwapRestricted, RoundTrip, VaultModel.ExecuteRoundTrip, VaultModel.Deposit, VaultModel.AdminWithdraw, Transfer,
         EscrowModel.CreateLimit, EscrowModel.CreateDca, EscrowModel.Fill, EscrowModel.FillDca, EscrowModel.Cancel,
         EscrowModel.Reclaim, EscrowModel.CancelDca, EscrowModel.ReclaimDca, DexTag;
  }

  /** No payment of a successful call is negative, and a withdrawal has the administrator's word. */
  lemma PaidIsPositive(w: World, call: Call)
    requires Attempt(w, call).Ok?
    ensures call.op.Pay? || call.op.Deposit? || call.op.Withdraw? ==> call.op.amount >= 0
    ensures call.op.Withdraw? ==> call.isAdmin
  {
    hide Swap, SwapRestricted, RoundTrip, VaultModel.ExecuteRoundTrip, Transfer,
         EscrowModel.CreateLimit, EscrowModel.CreateDca, EscrowModel.Fill, EscrowModel.FillDca, EscrowModel.Cancel,
         EscrowModel.Reclaim, EscrowModel.CancelDca, EscrowModel.ReclaimDca;
  }
}
