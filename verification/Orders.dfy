// The life of each order, read off the escrow's event log over every run of the system.

module Orders {
  import opened AggregatorModel
  import opened Base
  import opened Custody
  import opened EscrowModel
  import opened Ledger
  import Settlement

  datatype OrderKey = LimitKey(id: uint64) | DcaKey(id: uint64)

  /** The order an event is about. */
  function KeyOf(e: EscrowEvent): OrderKey {
    match e
    case LimitCreated(id, _, _, _, _, _, _) => LimitKey(id)
    case LimitFilled(id, _, _, _, _) => LimitKey(id)
    case LimitCancelled(id, _, _) => LimitKey(id)
    case LimitExpired(id, _, _) => LimitKey(id)
    case DcaCreated(id, _, _, _, _, _, _, _, _, _) => DcaKey(id)
    case DcaFilled(id, _, _, _, _, _) => DcaKey(id)
    case DcaCancelled(id, _, _) => DcaKey(id)
    case DcaExpired(id, _, _) => DcaKey(id)
  }

  predicate IsCreation(e: EscrowEvent) {
    e.LimitCreated? || e.DcaCreated?
  }

  /** The entries about one order, in log order. */
  function History(log: seq<Entry>, k: OrderKey): seq<Entry> {
    if log == [] then []
    else
      var last := log[|log| - 1];
      History(log[..|log| - 1], k) + if KeyOf(last.event) == k then [last] else []
  }

  lemma {:induction false} HistoryAppend(log: seq<Entry>, e: Entry, k: OrderKey)
    ensures History(log + [e], k) == if KeyOf(e.event) == k then History(log, k) + [e] else History(log, k)
  {
    assert (log + [e])[..|log|] == log;
    assert History(log, k) + [] == History(log, k);
  }

  datatype FillRecord = FillRecord(ledger: uint32, amountIn: Amount, amountOut: Amount)

  function FillIn(e: Entry): seq<FillRecord> {
    match e.event
    case LimitFilled(_, _, amountIn, amountOut, _) => [FillRecord(e.ledger, amountIn, amountOut)]
    case DcaFilled(_, _, amountIn, amountOut, _, _) => [FillRecord(e.ledger, amountIn, amountOut)]
    case _ => []
  }

  function Fills(h: seq<Entry>): seq<FillRecord> {
    if h == [] then [] else Fills(h[..|h| - 1]) + FillIn(h[|h| - 1])
  }

  function RefundIn(e: EscrowEvent): nat {
    match e
    case LimitCancelled(_, _, refunded) => refunded
    case LimitExpired(_, _, refunded) => refunded
    case DcaCancelled(_, _, refunded) => refunded
    case DcaExpired(_, _, refunded) => refunded
    case _ => 0
  }

  function Refunded(h: seq<Entry>): nat {
    if h == [] then 0 else Refunded(h[..|h| - 1]) + RefundIn(h[|h| - 1].event)
  }

  function Spent(f: seq<FillRecord>): nat {
    if f == [] then 0 else Spent(f[..|f| - 1]) + f[|f| - 1].amountIn
  }

  function Received(f: seq<FillRecord>): nat {
    if f == [] then 0 else Received(f[..|f| - 1]) + f[|f| - 1].amountOut
  }

  lemma {:induction false} Extends(h: seq<Entry>, e: Entry)
    ensures Fills(h + [e]) == Fills(h) + FillIn(e)
    ensures Refunded(h + [e]) == Refunded(h) + RefundIn(e.event)
    ensures FillIn(e) == [] ==> Spent(Fills(h + [e])) == Spent(Fills(h))
    ensures FillIn(e) != [] ==> Spent(Fills(h + [e])) == Spent(Fills(h)) + FillIn(e)[0].amountIn
  {
    assert (h + [e])[..|h|] == h;
    var f := Fills(h);
    if FillIn(e) == [] {
      assert f + [] == f;
    } else {
      assert (f + FillIn(e))[..|f|] == f;
    }
  }

  // ----- What a history says about its order -----

  /** Nothing is created twice. */
  ghost predicate CreatedOnce(h: seq<Entry>) {
    h != [] && IsCreation(h[0].event) && forall j :: 0 < j < |h| ==> !IsCreation(h[j].event)
  }

  ghost predicate FairFill(f: FillRecord, rate: Amount, expires: uint32) {
    && f.amountIn > 0 && f.amountOut >= 1 && f.ledger < expires
    && (rate > 0 ==> f.amountOut >= RequiredMinOut(f.amountIn, rate))
  }

  ghost predicate FairFills(f: seq<FillRecord>, rate: Amount, expires: uint32) {
    forall i :: 0 <= i < |f| ==> FairFill(f[i], rate, expires)
  }

  function InitialOf(h: seq<Entry>): Amount {
    if h == [] then 0
    else
      match h[0].event
      case LimitCreated(_, _, _, _, amountIn, _, _) => amountIn
      case DcaCreated(_, _, _, _, amountIn, _, _, _, _, _) => amountIn
      case _ => 0
  }

  function StartOf(h: seq<Entry>): uint32 {
    if h != [] && h[0].event.DcaCreated? then h[0].event.start else 0
  }

  /** Every unit put into the order is filled, refunded or still there. */
  ghost predicate Conserved(h: seq<Entry>, remaining: Amount, status: OrderStatus) {
    && InitialOf(h) == Spent(Fills(h)) + Refunded(h) + remaining
    && (status.Open? || status.Filled? ==> Refunded(h) == 0)
  }

  /** Refunds for expiry come only after the expiry ledger. */
  ghost predicate ExpiredLate(h: seq<Entry>, expires: uint32) {
    forall j :: 0 <= j < |h| && (h[j].event.LimitExpired? || h[j].event.DcaExpired?) ==> h[j].ledger > expires
  }

  /** Whether an order can still change after this event. */
  predicate LeavesOpen(e: EscrowEvent) {
    match e
    case LimitFilled(_, _, _, _, remaining) => remaining > 0
    case DcaFilled(_, _, _, _, remaining, _) => remaining > 0
    case _ => IsCreation(e)
  }

  /** What the last event of an order says is left of it, and its status. */
  function Told(e: EscrowEvent): (Amount, OrderStatus) {
    match e
    case LimitCreated(_, _, _, _, amountIn, _, _) => (amountIn, Open)
    case LimitFilled(_, _, _, _, remaining) => (remaining, if remaining == 0 then Filled else Open)
    case LimitCancelled(_, _, _) => (0, Cancelled)
    case LimitExpired(_, _, _) => (0, Expired)
    case DcaCreated(_, _, _, _, amountIn, _, _, _, _, _) => (amountIn, Open)
    case DcaFilled(_, _, _, _, remaining, _) => (remaining, if remaining == 0 then Filled else Open)
    case DcaCancelled(_, _, _) => (0, Cancelled)
    case DcaExpired(_, _, _) => (0, Expired)
  }

  /** The due date last announced for a DCA order. */
  function NextTold(h: seq<Entry>): uint32 {
    if h == [] then 0
    else
      match h[|h| - 1].event
      case DcaCreated(_, _, _, _, _, _, _, start, _, _) => start
      case DcaFilled(_, _, _, _, _, next) => next
      case _ => NextTold(h[..|h| - 1])
  }

  /** Every event leaves less of the order than any before it. */
  ghost predicate Dwindling(h: seq<Entry>) {
    forall i, j :: 0 <= i < j < |h| ==> Told(h[j].event).0 < Told(h[i].event).0
  }

  /** A fill that leaves a DCA order open announces a later due date than the last. */
  ghost predicate Rising(h: seq<Entry>) {
    forall j :: 0 < j < |h| && h[j].event.DcaFilled? && LeavesOpen(h[j].event) ==> NextTold(h[..j]) < h[j].event.next
  }

  /** The history ends with the first event that closes the order, and its last event tells the order's state. */
  ghost predicate Narrated(h: seq<Entry>, remaining: Amount, status: OrderStatus) {
    && h != [] && Dwindling(h)
    && (forall j :: 0 <= j < |h| - 1 ==> LeavesOpen(h[j].event))
    && (status.Open? <==> LeavesOpen(h[|h| - 1].event))
    && Told(h[|h| - 1].event) == (remaining, status)
  }

  ghost predicate LimitRecorded(h: seq<Entry>, id: uint64, o: LimitOrder) {
    && CreatedOnce(h)
    && h[0].event == LimitCreated(id, o.owner, o.tokenIn, o.tokenOut, InitialOf(h), o.limit, o.expires)
    && Conserved(h, o.remaining, o.status)
    && Narrated(h, o.remaining, o.status)
    && FairFills(Fills(h), o.limit, o.expires)
    && ExpiredLate(h, o.expires)
  }

  ghost predicate DcaRecorded(h: seq<Entry>, id: uint64, o: DcaOrder) {
    && CreatedOnce(h)
    && h[0].event == DcaCreated(id, o.owner, o.tokenIn, o.tokenOut, InitialOf(h), o.chunk, o.interval, StartOf(h), o.minRate, o.expires)
    && Conserved(h, o.remaining, o.status)
    && Narrated(h, o.remaining, o.status) && NextTold(h) == o.next && Rising(h)
    && FairFills(Fills(h), o.minRate, o.expires)
    && ExpiredLate(h, o.expires)
    && Paced(Fills(h), o, StartOf(h))
  }

  /** Fills are a full interval apart, the first not before the start; each spends a whole chunk, except
      the one that empties the order. */
  ghost predicate Paced(f: seq<FillRecord>, o: DcaOrder, start: uint32) {
    && (f != [] ==> f[0].ledger >= start)
    && (forall i :: 0 < i < |f| ==> f[i].ledger >= f[i - 1].ledger + o.interval)
    && (forall i :: 0 <= i < |f| ==> f[i].amountIn <= o.chunk)
    && (forall i :: 0 <= i < |f| - 1 || (0 <= i < |f| && !o.status.Filled?) ==> f[i].amountIn == o.chunk)
    && (o.status.Open? ==> o.next == if f == [] then start else SaturatingAdd32(f[|f| - 1].ledger, o.interval))
  }

  /** Every stored order agrees with its history, and no history exists without an order. */
  ghost predicate Recorded(b: Book) {
    && (forall id: uint64 :: id in b.limits ==> LimitRecorded(History(b.log, LimitKey(id)), id, b.limits[id]))
    && (forall id: uint64 :: id in b.dcas ==> DcaRecorded(History(b.log, DcaKey(id)), id, b.dcas[id]))
    && (forall id: uint64 :: id !in b.limits ==> History(b.log, LimitKey(id)) == [])
    && (forall id: uint64 :: id !in b.dcas ==> History(b.log, DcaKey(id)) == [])
  }

  // ----- One entry at a time -----

  lemma CreationStays(h: seq<Entry>, e: Entry)
    requires CreatedOnce(h) && !IsCreation(e.event)
    ensures CreatedOnce(h + [e]) && (h + [e])[0] == h[0]
    ensures InitialOf(h + [e]) == InitialOf(h) && StartOf(h + [e]) == StartOf(h)
  {
  }

  lemma LateExtends(h: seq<Entry>, e: Entry, expires: uint32)
    requires ExpiredLate(h, expires)
    requires e.event.LimitExpired? || e.event.DcaExpired? ==> e.ledger > expires
    ensures ExpiredLate(h + [e], expires)
  {
  }

  lemma NarrationExtends(h: seq<Entry>, e: Entry, remaining: Amount, status: OrderStatus)
    requires Narrated(h, remaining, status) && status.Open? && !IsCreation(e.event)
    requires Told(e.event).1.Open? <==> LeavesOpen(e.event)
    requires Told(e.event).0 < remaining
    ensures Narrated(h + [e], Told(e.event).0, Told(e.event).1)
    ensures NextTold(h + [e]) == if e.event.DcaFilled? then e.event.next else NextTold(h)
  {
    assert (h + [e])[..|h|] == h;
  }

  lemma RisingExtends(h: seq<Entry>, e: Entry)
    requires Rising(h) && (e.event.DcaFilled? && LeavesOpen(e.event) ==> NextTold(h) < e.event.next)
    ensures Rising(h + [e])
  {
    hide NextTold, LeavesOpen;
    forall j | 0 < j < |h + [e]| && (h + [e])[j].event.DcaFilled? && LeavesOpen((h + [e])[j].event)
      ensures NextTold((h + [e])[..j]) < (h + [e])[j].event.next
    {
      assert (h + [e])[..j] == if j < |h| then h[..j] else h;
    }
  }

  lemma FairExtends(f: seq<FillRecord>, r: FillRecord, rate: Amount, expires: uint32)
    requires FairFills(f, rate, expires) && FairFill(r, rate, expires)
    ensures FairFills(f + [r], rate, expires)
  {
    hide FairFill;
  }

  lemma PacedExtends(f: seq<FillRecord>, r: FillRecord, o: DcaOrder, o': DcaOrder, start: uint32)
    requires Paced(f, o, start) && o.status.Open? && o.next <= r.ledger < U32_MAX && r.amountIn <= o.chunk
    requires o' == o.(remaining := o'.remaining, status := o'.status, next := o'.next)
    requires o'.status.Filled? || (r.amountIn == o.chunk && o'.next == SaturatingAdd32(r.ledger, o.interval))
    ensures Paced(f + [r], o', start)
  {
    var g := f + [r];
    assert forall i :: 0 <= i < |f| ==> g[i] == f[i];
    assert g[|f|] == r;
  }

  lemma LimitFillRecorded(h: seq<Entry>, id: uint64, o: LimitOrder, now: uint32, amountIn: Amount, out: Amount)
    requires LimitRecorded(h, id, o) && o.status.Open? && 0 < amountIn <= o.remaining && now < o.expires
    requires out >= 1 && out >= RequiredMinOut(amountIn, o.limit)
    ensures var left := o.remaining - amountIn;
            LimitRecorded(h + [Entry(now, LimitFilled(id, o.owner, amountIn, out, left))], id,
                          o.(remaining := left, status := if left == 0 then Filled else Open))
  {
    hide RequiredMinOut, CreatedOnce, ExpiredLate, Narrated, Rising, NextTold, FairFills, Fills, Refunded, Spent, InitialOf;
    var e := Entry(now, LimitFilled(id, o.owner, amountIn, out, o.remaining - amountIn));
    Extends(h, e);
    CreationStays(h, e);
    LateExtends(h, e, o.expires);
    NarrationExtends(h, e, o.remaining, o.status);
    FairExtends(Fills(h), FillRecord(now, amountIn, out), o.limit, o.expires);
  }

  lemma LimitCloseRecorded(h: seq<Entry>, id: uint64, o: LimitOrder, now: uint32, e: EscrowEvent, status: OrderStatus)
    requires LimitRecorded(h, id, o) && o.status.Open? && o.remaining > 0 && (status.Cancelled? || status.Expired?)
    requires if status.Cancelled? then e == LimitCancelled(id, o.owner, o.remaining)
             else e == LimitExpired(id, o.owner, o.remaining) && now > o.expires
    ensures LimitRecorded(h + [Entry(now, e)], id, o.(remaining := 0, status := status))
  {
    hide CreatedOnce, ExpiredLate, Narrated, Rising, NextTold, FairFills, Fills, Refunded, Spent, InitialOf;
    Extends(h, Entry(now, e));
    CreationStays(h, Entry(now, e));
    LateExtends(h, Entry(now, e), o.expires);
    NarrationExtends(h, Entry(now, e), o.remaining, o.status);
    assert Fills(h) + [] == Fills(h);
  }

  lemma DcaFillRecorded(h: seq<Entry>, id: uint64, o: DcaOrder, now: uint32, out: Amount, o': DcaOrder)
    requires DcaRecorded(h, id, o) && o.status.Open? && o.remaining > 0 && o.chunk > 0 && o.interval > 0 && o.next <= now < o.expires
    requires out >= 1 && (o.minRate > 0 ==> out >= RequiredMinOut(ChunkDue(o), o.minRate))
    requires var left := o.remaining - ChunkDue(o);
             o' == if left == 0 then o.(remaining := left, status := Filled)
                   else o.(remaining := left, next := SaturatingAdd32(now, o.interval))
    ensures DcaRecorded(h + [Entry(now, DcaFilled(id, o.owner, ChunkDue(o), out, o.remaining - ChunkDue(o), o'.next))], id, o')
  {
    hide RequiredMinOut, CreatedOnce, ExpiredLate, Narrated, Rising, NextTold, FairFills, Paced, Fills, Refunded, Spent, InitialOf, StartOf;
    var e := Entry(now, DcaFilled(id, o.owner, ChunkDue(o), out, o.remaining - ChunkDue(o), o'.next));
    Extends(h, e);
    CreationStays(h, e);
    LateExtends(h, e, o.expires);
    NarrationExtends(h, e, o.remaining, o.status);
    RisingExtends(h, e);
    FairExtends(Fills(h), FillRecord(now, ChunkDue(o), out), o.minRate, o.expires);
    PacedExtends(Fills(h), FillRecord(now, ChunkDue(o), out), o, o', StartOf(h));
  }

  lemma DcaCloseRecorded(h: seq<Entry>, id: uint64, o: DcaOrder, now: uint32, e: EscrowEvent, status: OrderStatus)
    requires DcaRecorded(h, id, o) && o.status.Open? && o.remaining > 0 && (status.Cancelled? || status.Expired?)
    requires if status.Cancelled? then e == DcaCancelled(id, o.owner, o.remaining)
             else e == DcaExpired(id, o.owner, o.remaining) && now > o.expires
    ensures DcaRecorded(h + [Entry(now, e)], id, o.(remaining := 0, status := status))
  {
    hide CreatedOnce, ExpiredLate, Narrated, Rising, NextTold, FairFills, Fills, Refunded, Spent, InitialOf, StartOf;
    Extends(h, Entry(now, e));
    CreationStays(h, Entry(now, e));
    LateExtends(h, Entry(now, e), o.expires);
    RisingExtends(h, Entry(now, e));
    NarrationExtends(h, Entry(now, e), o.remaining, o.status);
    assert Fills(h) + [] == Fills(h);
  }

  /** A creation alone: nothing filled, nothing refunded. */
  lemma FirstEntry(e: Entry, expires: uint32)
    requires IsCreation(e.event)
    ensures Fills([e]) == [] && Refunded([e]) == 0 && CreatedOnce([e]) && Rising([e]) && ExpiredLate([e], expires)
    ensures Narrated([e], Told(e.event).0, Told(e.event).1)
  {
    Extends([], e);
    assert [] + [e] == [e];
  }

  lemma NewLimitRecorded(id: uint64, o: LimitOrder, now: uint32)
    requires o.status.Open? && o.remaining > 0
    ensures LimitRecorded([Entry(now, LimitCreated(id, o.owner, o.tokenIn, o.tokenOut, o.remaining, o.limit, o.expires))], id, o)
  {
    hide Fills, Refunded, CreatedOnce, Narrated, ExpiredLate;
    FirstEntry(Entry(now, LimitCreated(id, o.owner, o.tokenIn, o.tokenOut, o.remaining, o.limit, o.expires)), o.expires);
  }

  lemma NewDcaRecorded(id: uint64, o: DcaOrder, now: uint32)
    requires o.status.Open?
    ensures DcaRecorded([Entry(now, DcaCreated(id, o.owner, o.tokenIn, o.tokenOut, o.remaining, o.chunk, o.interval, o.next,
                                               o.minRate, o.expires))], id, o)
  {
    hide Fills, Refunded, CreatedOnce, Narrated, Rising, ExpiredLate;
    FirstEntry(Entry(now, DcaCreated(id, o.owner, o.tokenIn, o.tokenOut, o.remaining, o.chunk, o.interval, o.next, o.minRate,
                                     o.expires)), o.expires);
  }

  /** A new entry touches the history of its own order only. */
  lemma LimitStep(b: Book, id: uint64, o: LimitOrder, next: uint64, e: Entry)
    requires Recorded(b) && KeyOf(e.event) == LimitKey(id)
    requires LimitRecorded(History(b.log, LimitKey(id)) + [e], id, o)
    ensures Recorded(b.(limits := b.limits[id := o], nextLimit := next, log := b.log + [e]))
  {
    hide LimitRecorded, DcaRecorded, KeyOf, History;
    forall k: OrderKey
      ensures k == LimitKey(id) ==> History(b.log + [e], k) == History(b.log, k) + [e]
      ensures k != LimitKey(id) ==> History(b.log + [e], k) == History(b.log, k)
    {
      HistoryAppend(b.log, e, k);
    }
  }

  lemma DcaStep(b: Book, id: uint64, o: DcaOrder, next: uint64, e: Entry)
    requires Recorded(b) && KeyOf(e.event) == DcaKey(id)
    requires DcaRecorded(History(b.log, DcaKey(id)) + [e], id, o)
    ensures Recorded(b.(dcas := b.dcas[id := o], nextDca := next, log := b.log + [e]))
  {
    hide LimitRecorded, DcaRecorded, KeyOf, History;
    forall k: OrderKey
      ensures k == DcaKey(id) ==> History(b.log + [e], k) == History(b.log, k) + [e]
      ensures k != DcaKey(id) ==> History(b.log + [e], k) == History(b.log, k)
    {
      HistoryAppend(b.log, e, k);
    }
  }

  // ----- One call at a time -----

  lemma ProceedsMeetMinimum(c: Chain, venues: set<(uint32, Address)>, owner: Address, tokenIn: Address, tokenOut: Address,
                            routes: seq<SubRoute>, minOut: int128, replies: seq<Reply>, c': Chain, out: Amount)
    requires SwapForOwner(c, venues, owner, tokenIn, tokenOut, routes, minOut, replies) == Ok((c', out))
    ensures out >= minOut && out >= 1
  {
    hide AggregatorModel.Swap, Transfer, AllRegistered;
    var (c1, out1) := SwapRestricted(c, venues, {Escrow}, Escrow, tokenIn, tokenOut, routes, minOut, replies).value;
    Settlement.SwapSettles(c, {Escrow}, Escrow, tokenIn, tokenOut, routes, minOut, replies, c1, out1, tokenIn);
  }

  /** An id not handed out yet has no history. */
  lemma NewIds(b: Book)
    requires ValidBook(b) && Recorded(b)
    ensures History(b.log, LimitKey(b.nextLimit)) == [] && History(b.log, DcaKey(b.nextDca)) == []
  {
    hide History, LimitRecorded, DcaRecorded, ValidLimit, ValidDca;
  }

  lemma CreateLimitRecorded(c: Chain, b: Book, auth: set<Address>, now: uint32, owner: Address, tokenIn: Address, tokenOut: Address,
                            amountIn: int128, limit: int128, expires: uint32, c': Chain, b': Book)
    requires ValidBook(b) && Recorded(b)
    requires CreateLimit(c, b, auth, now, owner, tokenIn, tokenOut, amountIn, limit, expires) == Ok((c', b'))
    ensures Recorded(b')
  {
    hide CreateLimit, Recorded, ValidBook, LimitRecorded, History;
    CreateLimitEffect(c, b, auth, now, owner, tokenIn, tokenOut, amountIn, limit, expires, c', b');
    var o := LimitOrder(owner, tokenIn, tokenOut, amountIn, limit, expires, Open);
    var e := Entry(now, LimitCreated(b.nextLimit, owner, tokenIn, tokenOut, amountIn, limit, expires));
    NewIds(b);
    NewLimitRecorded(b.nextLimit, o, now);
    assert [] + [e] == [e];
    LimitStep(b, b.nextLimit, o, b.nextLimit + 1, e);
  }

  lemma CreateDcaRecorded(c: Chain, b: Book, auth: set<Address>, now: uint32, owner: Address, tokenIn: Address, tokenOut: Address,
                          amountIn: int128, chunk: int128, interval: uint32, start: uint32, minRate: int128, expires: uint32,
                          c': Chain, b': Book)
    requires ValidBook(b) && Recorded(b)
    requires CreateDca(c, b, auth, now, owner, tokenIn, tokenOut, amountIn, chunk, interval, start, minRate, expires) == Ok((c', b'))
    ensures Recorded(b')
  {
    hide CreateDca, Recorded, ValidBook, DcaRecorded, History;
    CreateDcaEffect(c, b, auth, now, owner, tokenIn, tokenOut, amountIn, chunk, interval, start, minRate, expires, c', b');
    var o := DcaOrder(owner, tokenIn, tokenOut, amountIn, chunk, interval, start, minRate, expires, Open);
    var e := Entry(now, DcaCreated(b.nextDca, owner, tokenIn, tokenOut, amountIn, chunk, interval, start, minRate, expires));
    NewIds(b);
    NewDcaRecorded(b.nextDca, o, now);
    assert [] + [e] == [e];
    DcaStep(b, b.nextDca, o, b.nextDca + 1, e);
  }

  lemma CloseLimitKeepsRecord(c: Chain, b: Book, now: uint32, id: uint64, status: OrderStatus, c': Chain, b': Book)
    requires ValidBook(b) && Recorded(b) && id in b.limits && b.limits[id].status.Open? && (status.Cancelled? || status.Expired?)
    requires status.Expired? ==> now > b.limits[id].expires
    requires CloseLimit(c, b, now, id, status) == Ok((c', b'))
    ensures Recorded(b')
  {
    hide Transfer, LimitRecorded, DcaRecorded;
    assert ValidLimit(b.limits[id]);
    var o, e := b.limits[id], b'.log[|b.log|];
    LimitCloseRecorded(History(b.log, LimitKey(id)), id, o, now, e.event, status);
    LimitStep(b, id, o.(remaining := 0, status := status), b.nextLimit, e);
  }

  lemma CloseDcaKeepsRecord(c: Chain, b: Book, now: uint32, id: uint64, status: OrderStatus, c': Chain, b': Book)
    requires ValidBook(b) && Recorded(b) && id in b.dcas && b.dcas[id].status.Open? && (status.Cancelled? || status.Expired?)
    requires status.Expired? ==> now > b.dcas[id].expires
    requires CloseDca(c, b, now, id, status) == Ok((c', b'))
    ensures Recorded(b')
  {
    hide Transfer, LimitRecorded, DcaRecorded;
    assert ValidDca(b.dcas[id]);
    var o, e := b.dcas[id], b'.log[|b.log|];
    DcaCloseRecorded(History(b.log, DcaKey(id)), id, o, now, e.event, status);
    DcaStep(b, id, o.(remaining := 0, status := status), b.nextDca, e);
  }

  lemma FillKeepsRecord(c: Chain, b: Book, venues: set<(uint32, Address)>, now: uint32, id: uint64, amountIn: int128,
                        routes: seq<SubRoute>, minOut: int128, replies: seq<Reply>, c': Chain, b': Book)
    requires Recorded(b)
    requires Fill(c, b, venues, now, id, amountIn, routes, minOut, replies) == Ok((c', b'))
    ensures Recorded(b')
  {
    hide SwapForOwner, RoutedFrom, LimitRecorded, DcaRecorded, RequiredMinOut;
    var o := b.limits[id];
    var out := SwapForOwner(c, venues, o.owner, o.tokenIn, o.tokenOut, routes, minOut, replies).value.1;
    ProceedsMeetMinimum(c, venues, o.owner, o.tokenIn, o.tokenOut, routes, minOut, replies, c', out);
    LimitFillRecorded(History(b.log, LimitKey(id)), id, o, now, amountIn, out);
    LimitStep(b, id, b'.limits[id], b.nextLimit, b'.log[|b.log|]);
  }

  lemma FillDcaKeepsRecord(c: Chain, b: Book, venues: set<(uint32, Address)>, now: uint32, id: uint64, routes: seq<SubRoute>,
                           minOut: int128, replies: seq<Reply>, c': Chain, b': Book)
    requires ValidBook(b) && Recorded(b)
    requires FillDca(c, b, venues, now, id, routes, minOut, replies) == Ok((c', b'))
    ensures Recorded(b')
  {
    hide SwapForOwner, RoutedFrom, LimitRecorded, DcaRecorded, RequiredMinOut;
    var o := b.dcas[id];
    assert ValidDca(o);
    var out := SwapForOwner(c, venues, o.owner, o.tokenIn, o.tokenOut, routes, minOut, replies).value.1;
    ProceedsMeetMinimum(c, venues, o.owner, o.tokenIn, o.tokenOut, routes, minOut, replies, c', out);
    DcaFillRecorded(History(b.log, DcaKey(id)), id, o, now, out, b'.dcas[id]);
    DcaStep(b, id, b'.dcas[id], b.nextDca, b'.log[|b.log|]);
  }
}
