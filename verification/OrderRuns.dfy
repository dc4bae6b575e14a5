// What every order goes through, over every run of the whole system.

module OrderRuns {
  import opened AggregatorModel
  import opened Arith
  import opened Base
  import opened Custody
  import opened EscrowModel
  import opened Ledger
  import opened Orders
  import opened System
  import Runs
  import VaultModel

  lemma CallKeepsRecord(w: World, call: Call)
    requires ValidBook(w.book) && Recorded(w.book) && WellSigned(call)
    ensures Recorded(Exec(w, call).book)
  {
    hide EscrowModel.CreateLimit, EscrowModel.CreateDca, EscrowModel.Fill, EscrowModel.FillDca, CloseLimit, CloseDca,
         ValidBook, Recorded, AggregatorModel.Swap, RoundTrip, VaultModel.ExecuteRoundTrip, Transfer;
    if Attempt(w, call).Ok? {
      var w' := Exec(w, call);
      var c, b, c', b' := w.chain, w.book, w'.chain, w'.book;
      match call.op {
        case CreateLimit(owner, tokenIn, tokenOut, amountIn, limit, expires) =>
          CreateLimitRecorded(c, b, call.auth, call.now, owner, tokenIn, tokenOut, amountIn, limit, expires, c', b');
        case Fill(id, amountIn, routes, minOut) =>
          FillKeepsRecord(c, b, w.venues, call.now, id, amountIn, routes, minOut, call.replies, c', b');
        case Cancel(id) => CloseLimitKeepsRecord(c, b, call.now, id, Cancelled, c', b');
        case Reclaim(id) => CloseLimitKeepsRecord(c, b, call.now, id, Expired, c', b');
        case CreateDca(owner, tokenIn, tokenOut, amountIn, chunk, interval, start, minRate, expires) =>
          CreateDcaRecorded(c, b, call.auth, call.now, owner, tokenIn, tokenOut, amountIn, chunk, interval, start, minRate,
                            expires, c', b');
        case FillDca(id, routes, minOut) =>
          FillDcaKeepsRecord(c, b, w.venues, call.now, id, routes, minOut, call.replies, c', b');
        case CancelDca(id) => CloseDcaKeepsRecord(c, b, call.now, id, Cancelled, c', b');
        case ReclaimDca(id) => CloseDcaKeepsRecord(c, b, call.now, id, Expired, c', b');
        case _ =>
      }
    }
  }

  /** After any run from an empty book, every order agrees with its history in the log. */
  lemma {:induction false} RunRecorded(w: World, calls: seq<Call>)
    requires Initial(w) && AllSigned(calls)
    ensures ValidBook(Run(w, calls).book) && Recorded(Run(w, calls).book)
  {
    hide Exec, ValidBook, Recorded;
    if calls == [] {
      EmptyBook(w.book);
    } else {
      var front, call := calls[..|calls| - 1], calls[|calls| - 1];
      assert WellSigned(call);
      RunRecorded(w, front);
      Runs.CallAccounted(Run(w, front), call, Escrow);
      CallKeepsRecord(Run(w, front), call);
    }
  }

  lemma EmptyBook(b: Book)
    requires b == Book(map[], map[], 0, 0, [])
    ensures ValidBook(b) && Recorded(b)
  {
  }

  // ----- Conservation and status -----

  /** A limit order's account after any run: what was put in equals what was filled, refunded and is left; the order is
      open exactly while something is left; and nothing is refunded from an order that is open or filled. */
  lemma LimitOrderAccount(w: World, calls: seq<Call>, id: uint64)
    requires Initial(w) && AllSigned(calls) && id in Run(w, calls).book.limits
    ensures var b := Run(w, calls).book;
            var o, h := b.limits[id], History(b.log, LimitKey(id));
            && InitialOf(h) == Spent(Fills(h)) + Refunded(h) + o.remaining
            && (o.status.Open? <==> o.remaining > 0)
            && (o.status.Open? || o.status.Filled? ==> Refunded(h) == 0)
            && (o.status.Filled? ==> Spent(Fills(h)) == InitialOf(h))
  {
    hide Run, History, Fills, Refunded, FairFills, CreatedOnce;
    RunRecorded(w, calls);
    assert ValidLimit(Run(w, calls).book.limits[id]);
  }

  lemma DcaOrderAccount(w: World, calls: seq<Call>, id: uint64)
    requires Initial(w) && AllSigned(calls) && id in Run(w, calls).book.dcas
    ensures var b := Run(w, calls).book;
            var o, h := b.dcas[id], History(b.log, DcaKey(id));
            && InitialOf(h) == Spent(Fills(h)) + Refunded(h) + o.remaining
            && (o.status.Open? <==> o.remaining > 0)
            && (o.status.Open? || o.status.Filled? ==> Refunded(h) == 0)
            && (o.status.Filled? ==> Spent(Fills(h)) == InitialOf(h))
  {
    hide Run, History, Fills, Refunded, FairFills, CreatedOnce, Paced;
    RunRecorded(w, calls);
    assert ValidDca(Run(w, calls).book.dcas[id]);
  }

  // ----- The limit price -----

  /** The price: while the product is representable, the required minimum is the input times the rate, in units of 1e-7,
      rounded down; beyond that it is the largest amount. */
  lemma LimitPrice(amountIn: Amount, rate: Amount)
    ensures var m := RequiredMinOut(amountIn, rate);
            if amountIn * rate <= I128_MAX then m * 10_000_000 <= amountIn * rate < (m + 1) * 10_000_000 else m == I128_MAX
  {
    MulLe(0, amountIn, rate);
    DivBound(amountIn * rate, RATE_SCALE);
  }

  /** The floored requirement is exact when the product is representable, or when its quotient is the largest amount. */
  lemma RequiredMinOutExact(amountIn: Amount, rate: Amount)
    ensures RequiredMinOut(amountIn, rate) == amountIn * rate / 10_000_000
            <==> amountIn * rate <= I128_MAX || amountIn * rate / 10_000_000 == I128_MAX
  {
    MulLe(0, amountIn, rate);
    DivBound(amountIn * rate, 10_000_000);
  }

  /** Beyond that, a large enough order at a high enough rate is owed more than the check demands. */
  lemma RequiredMinOutCanFallShort()
    ensures RequiredMinOut(I128_MAX, 100_000_000) < I128_MAX * 100_000_000 / 10_000_000
  {
    assert I128_MAX * 100_000_000 / 10_000_000 == 10 * I128_MAX;
  }

  /** What the limit asks for one fill, without the overflow branch. */
  function FlooredLimit(f: FillRecord, rate: Amount): nat {
    MulLe(0, f.amountIn, rate);
    DivBound(f.amountIn * rate, 10_000_000);
    f.amountIn * rate / 10_000_000
  }

  /** A fill pays the floored limit exactly when that is an amount at all: where the product overflows but its quotient
      does not, the check demands the largest amount, which is more. */
  lemma FairFillPaysExactly(f: FillRecord, rate: Amount, expires: uint32)
    requires FairFill(f, rate, expires) && rate > 0
    ensures f.amountOut >= FlooredLimit(f, rate) <==> FlooredLimit(f, rate) <= I128_MAX
  {
    MulLe(0, f.amountIn, rate);
  }

  lemma FairFillPays(f: FillRecord, rate: Amount)
    requires f.amountOut >= FlooredLimit(f, rate)
    ensures f.amountOut * 10_000_000 + 9_999_999 >= f.amountIn * rate
  {
    DivBound(f.amountIn * rate, 10_000_000);
  }

  lemma {:induction false} FairFillsPay(f: seq<FillRecord>, rate: Amount, expires: uint32)
    requires FairFills(f, rate, expires) && rate > 0
    ensures Received(f) >= |f|
    ensures (forall i :: 0 <= i < |f| ==> FlooredLimit(f[i], rate) <= I128_MAX) ==>
              Received(f) * 10_000_000 + |f| * 9_999_999 >= Spent(f) * rate
  {
    hide FlooredLimit, FairFill;
    if f == [] {
    } else {
      var front, last := f[..|f| - 1], f[|f| - 1];
      FairFillsPay(front, rate, expires);
      assert FairFill(last, rate, expires);
      FairFillPaysExactly(last, rate, expires);
      if FlooredLimit(last, rate) <= I128_MAX {
        FairFillPays(last, rate);
      }
      Distribute(Spent(front), last.amountIn, rate);
      PaidAtLeastOne(last, rate, expires);
    }
  }

  lemma PaidAtLeastOne(f: FillRecord, rate: Amount, expires: uint32)
    requires FairFill(f, rate, expires)
    ensures f.amountOut >= 1
  {
  }

  /** The limit price across partial fills, in any run. Each fill pays the owner its floored limit if and only if that is an
      amount; and when it is for each of the k fills, the owner has been paid, in units of 1e-7, less than k units short of the
      limit on everything filled. Every fill pays at least one unit. The size of the whole order plays no part. */
  lemma LimitPriceHolds(w: World, calls: seq<Call>, id: uint64)
    requires Initial(w) && AllSigned(calls) && id in Run(w, calls).book.limits
    ensures var b := Run(w, calls).book;
            var f, limit := Fills(History(b.log, LimitKey(id))), b.limits[id].limit;
            && (forall i :: 0 <= i < |f| ==> (f[i].amountOut >= FlooredLimit(f[i], limit) <==> FlooredLimit(f[i], limit) <= I128_MAX))
            && ((forall i :: 0 <= i < |f| ==> FlooredLimit(f[i], limit) <= I128_MAX) ==>
                  Received(f) * 10_000_000 + |f| * 9_999_999 >= Spent(f) * limit)
            && Received(f) >= |f|
            && forall i :: 0 <= i < |f| ==> f[i].amountOut >= RequiredMinOut(f[i].amountIn, limit)
  {
    hide Run, History, Fills, Refunded, CreatedOnce, RequiredMinOut, InitialOf, Received, Spent, FlooredLimit;
    RunRecorded(w, calls);
    var b := Run(w, calls).book;
    var o, h := b.limits[id], History(b.log, LimitKey(id));
    assert ValidLimit(o);
    assert LimitRecorded(h, id, o);
    var f := Fills(h);
    FairFillsPay(f, o.limit, o.expires);
    forall i | 0 <= i < |f|
      ensures f[i].amountOut >= FlooredLimit(f[i], o.limit) <==> FlooredLimit(f[i], o.limit) <= I128_MAX
      ensures f[i].amountOut >= RequiredMinOut(f[i].amountIn, o.limit)
    {
      assert FairFill(f[i], o.limit, o.expires);
      FairFillPaysExactly(f[i], o.limit, o.expires);
    }
  }

  /** The same for a DCA order with a minimum rate; without one, every fill pays at least one unit. */
  lemma DcaPriceHolds(w: World, calls: seq<Call>, id: uint64)
    requires Initial(w) && AllSigned(calls) && id in Run(w, calls).book.dcas
    ensures var b := Run(w, calls).book;
            var f, rate := Fills(History(b.log, DcaKey(id))), b.dcas[id].minRate;
            && (forall i :: 0 <= i < |f| ==> f[i].amountOut >= 1)
            && (rate > 0 ==>
                  && (forall i :: 0 <= i < |f| ==> (f[i].amountOut >= FlooredLimit(f[i], rate) <==> FlooredLimit(f[i], rate) <= I128_MAX))
                  && ((forall i :: 0 <= i < |f| ==> FlooredLimit(f[i], rate) <= I128_MAX) ==>
                        Received(f) * 10_000_000 + |f| * 9_999_999 >= Spent(f) * rate))
  {
    hide Run, History, Fills, Refunded, CreatedOnce, RequiredMinOut, InitialOf, Received, Spent, FlooredLimit, Paced;
    RunRecorded(w, calls);
    var b := Run(w, calls).book;
    var o, h := b.dcas[id], History(b.log, DcaKey(id));
    assert DcaRecorded(h, id, o);
    var f := Fills(h);
    if o.minRate > 0 {
      FairFillsPay(f, o.minRate, o.expires);
    }
    forall i | 0 <= i < |f|
      ensures f[i].amountOut >= 1
      ensures o.minRate > 0 ==> (f[i].amountOut >= FlooredLimit(f[i], o.minRate) <==> FlooredLimit(f[i], o.minRate) <= I128_MAX)
    {
      assert FairFill(f[i], o.minRate, o.expires);
      if o.minRate > 0 {
        FairFillPaysExactly(f[i], o.minRate, o.expires);
      }
    }
  }

  // ----- DCA pacing -----

  lemma {:induction false} FillNotBefore(f: seq<FillRecord>, o: DcaOrder, start: uint32, i: nat)
    requires Paced(f, o, start) && i < |f|
    ensures f[i].ledger >= start + i * o.interval
  {
    if i == 0 {
    } else {
      FillNotBefore(f, o, start, i - 1);
      Distribute(i - 1, 1, o.interval);
    }
  }

  /** Whole chunks, for all fills but the one that empties the order. */
  lemma {:induction false} WholeChunks(f: seq<FillRecord>, chunk: Amount)
    requires forall i :: 0 <= i < |f| ==> f[i].amountIn == chunk
    ensures Spent(f) == |f| * chunk
  {
    if f == [] {
    } else {
      WholeChunks(f[..|f| - 1], chunk);
      Distribute(|f| - 1, 1, chunk);
    }
  }

  function Min(a: int, b: int): int {
    if a < b then a else b
  }

  lemma SpentIsChunks(f: seq<FillRecord>, o: DcaOrder, start: uint32, initial: Amount)
    requires Paced(f, o, start) && Spent(f) <= initial
    requires o.status.Filled? ==> Spent(f) == initial
    ensures Spent(f) == Min(|f| * o.chunk, initial)
  {
    if f != [] {
      WholeChunks(f[..|f| - 1], o.chunk);
      Distribute(|f| - 1, 1, o.chunk);
    }
  }

  /** What was spent by ledger L. */
  function SpentBy(f: seq<FillRecord>, ledger: int): nat {
    if f == [] then 0
    else SpentBy(f[..|f| - 1], ledger) + if f[|f| - 1].ledger <= ledger then f[|f| - 1].amountIn else 0
  }

  lemma {:induction false} SpentByAtMost(f: seq<FillRecord>, chunk: Amount, ledger: int)
    requires forall i :: 0 <= i < |f| ==> f[i].amountIn <= chunk
    ensures SpentBy(f, ledger) <= |f| * chunk
  {
    if f == [] {
    } else {
      SpentByAtMost(f[..|f| - 1], chunk, ledger);
      Distribute(|f| - 1, 1, chunk);
    }
  }

  /** Fills no earlier than start, start + interval, ... spend by any ledger at most one chunk per interval begun. */
  lemma {:induction false} SpendingRate(f: seq<FillRecord>, chunk: Amount, interval: uint32, start: uint32, ledger: int)
    requires interval > 0
    requires forall i :: 0 <= i < |f| ==> f[i].amountIn <= chunk
    requires forall i :: 0 <= i < |f| ==> f[i].ledger >= start + i * interval
    ensures ledger < start ==> SpentBy(f, ledger) == 0
    ensures ledger >= start ==> SpentBy(f, ledger) <= chunk * ((ledger - start) / interval + 1)
  {
    if f == [] {
      if ledger >= start {
        QuotientNonNegative(ledger - start, interval);
        MulLe(0, (ledger - start) / interval + 1, chunk);
      }
    } else {
      var front, last := f[..|f| - 1], f[|f| - 1];
      SpendingRate(front, chunk, interval, start, ledger);
      MulLe(0, |f| - 1, interval);
      if last.ledger <= ledger {
        SpentByAtMost(f, chunk, ledger);
        ChunksBegun(|f|, chunk, interval, ledger - start);
      }
    }
  }

  lemma ChunksBegun(n: nat, chunk: nat, interval: int, elapsed: int)
    requires n > 0 && interval > 0 && (n - 1) * interval <= elapsed
    ensures n * chunk <= chunk * (elapsed / interval + 1)
  {
    IntervalsBegun(n - 1, interval, elapsed);
    MulLe(n, elapsed / interval + 1, chunk);
  }

  lemma QuotientNonNegative(x: int, d: int)
    requires x >= 0 && d > 0
    ensures x / d >= 0
  {
    DivBound(x, d);
    MulLe(x / d + 1, 0, d);
  }

  lemma IntervalsBegun(n: nat, interval: int, elapsed: int)
    requires interval > 0 && n * interval <= elapsed
    ensures n <= elapsed / interval
  {
    DivBound(elapsed, interval);
    MulLt(n, elapsed / interval + 1, interval);
  }

  /** The pacing of a DCA order after any run, for every fill and every ledger: fill i is no earlier than
      start + i * interval and lies in [start, expires); k fills have spent min(k * chunk, initial); and by ledger L at most
      one chunk has been spent for each interval begun. The saturating due date never lets an extra fill in, because
      start + i * interval is unbounded arithmetic. */
  lemma DcaPacing(w: World, calls: seq<Call>, id: uint64, ledger: int)
    requires Initial(w) && AllSigned(calls) && id in Run(w, calls).book.dcas
    ensures var b := Run(w, calls).book;
            var o, h := b.dcas[id], History(b.log, DcaKey(id));
            var f, start := Fills(h), StartOf(h);
            && (forall i :: 0 <= i < |f| ==> start + i * o.interval <= f[i].ledger < o.expires)
            && Spent(f) == Min(|f| * o.chunk, InitialOf(h))
            && o.interval > 0
            && (ledger < start ==> SpentBy(f, ledger) == 0)
            && (ledger >= start ==> SpentBy(f, ledger) <= o.chunk * ((ledger - start) / o.interval + 1))
  {
    hide Run, History, Fills, Refunded, CreatedOnce, RequiredMinOut, InitialOf, StartOf, Spent, Paced, SpentBy;
    RunRecorded(w, calls);
    var b := Run(w, calls).book;
    var o, h := b.dcas[id], History(b.log, DcaKey(id));
    var f, start := Fills(h), StartOf(h);
    assert ValidDca(o) && DcaRecorded(h, id, o);
    forall i | 0 <= i < |f|
      ensures start + i * o.interval <= f[i].ledger < o.expires && f[i].amountIn <= o.chunk
    {
      assert FairFill(f[i], o.minRate, o.expires);
      FillNotBefore(f, o, start, i);
      ChunkBound(f, o, start, i);
    }
    SpentIsChunks(f, o, start, InitialOf(h));
    SpendingRate(f, o.chunk, o.interval, start, ledger);
  }

  lemma ChunkBound(f: seq<FillRecord>, o: DcaOrder, start: uint32, i: nat)
    requires Paced(f, o, start) && i < |f|
    ensures f[i].amountIn <= o.chunk
  {
  }

  // ----- Terminal states and windows -----

  ghost predicate SameTerms(o: LimitOrder, o': LimitOrder) {
    o' == o.(remaining := o'.remaining, status := o'.status) && o'.remaining <= o.remaining
  }

  ghost predicate SameDcaTerms(o: DcaOrder, o': DcaOrder) {
    o' == o.(remaining := o'.remaining, status := o'.status, next := o'.next) && o'.remaining <= o.remaining
  }

  ghost predicate KeepsLimit(b: Book, b': Book, id: uint64) {
    id in b.limits ==>
      id in b'.limits && SameTerms(b.limits[id], b'.limits[id]) && (!b.limits[id].status.Open? ==> b'.limits[id] == b.limits[id])
  }

  ghost predicate KeepsDca(b: Book, b': Book, id: uint64) {
    id in b.dcas ==>
      id in b'.dcas && SameDcaTerms(b.dcas[id], b'.dcas[id]) && (!b.dcas[id].status.Open? ==> b'.dcas[id] == b.dcas[id])
  }

  lemma FillKeepsOrders(c: Chain, b: Book, venues: set<(uint32, Address)>, now: uint32, id: uint64, amountIn: int128,
                        routes: seq<SubRoute>, minOut: int128, replies: seq<Reply>, x: uint64)
    requires EscrowModel.Fill(c, b, venues, now, id, amountIn, routes, minOut, replies).Ok?
    ensures var b' := EscrowModel.Fill(c, b, venues, now, id, amountIn, routes, minOut, replies).value.1;
            KeepsLimit(b, b', x) && KeepsDca(b, b', x)
  {
    hide SwapForOwner, RoutedFrom, RequiredMinOut;
  }

  lemma FillDcaKeepsOrders(c: Chain, b: Book, venues: set<(uint32, Address)>, now: uint32, id: uint64, routes: seq<SubRoute>,
                           minOut: int128, replies: seq<Reply>, x: uint64)
    requires EscrowModel.FillDca(c, b, venues, now, id, routes, minOut, replies).Ok?
    ensures var b' := EscrowModel.FillDca(c, b, venues, now, id, routes, minOut, replies).value.1;
            KeepsLimit(b, b', x) && KeepsDca(b, b', x)
  {
    hide SwapForOwner, RoutedFrom, RequiredMinOut;
  }

  lemma CloseLimitKeepsOrders(c: Chain, b: Book, now: uint32, id: uint64, status: OrderStatus, x: uint64)
    requires id in b.limits && b.limits[id].status.Open? && CloseLimit(c, b, now, id, status).Ok?
    ensures var b' := CloseLimit(c, b, now, id, status).value.1;
            KeepsLimit(b, b', x) && KeepsDca(b, b', x)
  {
    hide Transfer;
  }

  lemma CloseDcaKeepsOrders(c: Chain, b: Book, now: uint32, id: uint64, status: OrderStatus, x: uint64)
    requires id in b.dcas && b.dcas[id].status.Open? && CloseDca(c, b, now, id, status).Ok?
    ensures var b' := CloseDca(c, b, now, id, status).value.1;
            KeepsLimit(b, b', x) && KeepsDca(b, b', x)
  {
    hide Transfer;
  }

  /** One call never changes a closed order, nor the terms of an open one. */
  lemma CallKeepsOrders(w: World, call: Call, x: uint64)
    requires ValidBook(w.book)
    ensures KeepsLimit(w.book, Exec(w, call).book, x) && KeepsDca(w.book, Exec(w, call).book, x)
  {
    if Attempt(w, call).Ok? && Runs.IsOrderOp(call.op) {
      OrderCallKeepsOrders(w, call, Exec(w, call), x);
    } else if Attempt(w, call).Ok? {
      hide Attempt;
      Runs.OtherCallKeepsBook(w, call, Exec(w, call));
    }
  }

  lemma OrderCallKeepsOrders(w: World, call: Call, w': World, x: uint64)
    requires ValidBook(w.book) && Runs.IsOrderOp(call.op) && Attempt(w, call) == Ok(w')
    ensures KeepsLimit(w.book, w'.book, x) && KeepsDca(w.book, w'.book, x)
  {
    hide EscrowModel.CreateLimit, EscrowModel.CreateDca, EscrowModel.Fill, EscrowModel.FillDca, CloseLimit, CloseDca;
    var c, b := w.chain, w.book;
    match call.op {
      case CreateLimit(owner, tokenIn, tokenOut, amountIn, limit, expires) =>
        CreateLimitEffect(c, b, call.auth, call.now, owner, tokenIn, tokenOut, amountIn, limit, expires, w'.chain, w'.book);
      case Fill(id, amountIn, routes, minOut) =>
        FillKeepsOrders(c, b, w.venues, call.now, id, amountIn, routes, minOut, call.replies, x);
      case Cancel(id) => CloseLimitKeepsOrders(c, b, call.now, id, Cancelled, x);
      case Reclaim(id) => CloseLimitKeepsOrders(c, b, call.now, id, Expired, x);
      case CreateDca(owner, tokenIn, tokenOut, amountIn, chunk, interval, start, minRate, expires) =>
        CreateDcaEffect(c, b, call.auth, call.now, owner, tokenIn, tokenOut, amountIn, chunk, interval, start, minRate,
                        expires, w'.chain, w'.book);
      case FillDca(id, routes, minOut) => FillDcaKeepsOrders(c, b, w.venues, call.now, id, routes, minOut, call.replies, x);
      case CancelDca(id) => CloseDcaKeepsOrders(c, b, call.now, id, Cancelled, x);
      case ReclaimDca(id) => CloseDcaKeepsOrders(c, b, call.now, id, Expired, x);
    }
  }

  /** Terminal states absorb: whatever is called afterwards, a closed order stays exactly as it is, and an order's
      terms never change and its remainder never grows. */
  lemma {:induction false} ClosedOrdersStayClosed(w: World, calls: seq<Call>, id: uint64)
    requires ValidBook(w.book) && AllSigned(calls)
    ensures var b, b' := w.book, Run(w, calls).book;
            && (id in b.limits ==> id in b'.limits && SameTerms(b.limits[id], b'.limits[id])
                                   && (!b.limits[id].status.Open? ==> b'.limits[id] == b.limits[id]))
            && (id in b.dcas ==> id in b'.dcas && SameDcaTerms(b.dcas[id], b'.dcas[id])
                                 && (!b.dcas[id].status.Open? ==> b'.dcas[id] == b.dcas[id]))
  {
    hide Exec, ValidBook, WellSigned;
    if calls == [] {
    } else {
      var front, call := calls[..|calls| - 1], calls[|calls| - 1];
      ClosedOrdersStayClosed(w, front, id);
      Runs.RunAccounted(w, front, Escrow);
      CallKeepsOrders(Run(w, front), call, id);
    }
  }

  /** The fill window and the reclaim window never meet: in any run, every fill of an order lies before its expiry
      ledger and every refund for expiry after it. */
  lemma WindowsNeverMeet(w: World, calls: seq<Call>, id: uint64)
    requires Initial(w) && AllSigned(calls)
    ensures var b := Run(w, calls).book;
            var h := History(b.log, LimitKey(id));
            id in b.limits ==>
              && (forall i :: 0 <= i < |Fills(h)| ==> Fills(h)[i].ledger < b.limits[id].expires)
              && (forall j :: 0 <= j < |h| && h[j].event.LimitExpired? ==> h[j].ledger > b.limits[id].expires)
    ensures var b := Run(w, calls).book;
            var h := History(b.log, DcaKey(id));
            id in b.dcas ==>
              && (forall i :: 0 <= i < |Fills(h)| ==> Fills(h)[i].ledger < b.dcas[id].expires)
              && (forall j :: 0 <= j < |h| && h[j].event.DcaExpired? ==> h[j].ledger > b.dcas[id].expires)
  {
    hide Run, History, Fills, Refunded, CreatedOnce, Conserved, Paced, RequiredMinOut;
    RunRecorded(w, calls);
  }
}
