// The index against the contract: the order tables are the escrow's stored orders, row for row.

module IndexRefines {
  import opened Base
  import opened EscrowModel
  import opened Index
  import opened Ingest
  import opened OrderEvents
  import opened ScVal
  import opened System
  import Decimal
  import Ledger
  import OrderRuns
  import Orders
  import ReadOrder
  import Regress
  import Runs
  import Skip
  import SkipRuns

  /** The escrow's log as the RPC serves it; each ledger's close time may or may not be readable. */
  function Wire(contract: Address, log: seq<Entry>, times: seq<CloseTime>): (feed: seq<ContractEvent>)
    requires |times| == |log|
    ensures |feed| == |log|
    ensures forall i :: 0 <= i < |log| ==> feed[i] == OnWire(contract, log[i], times[i])
  {
    seq(|log|, i requires 0 <= i < |log| => OnWire(contract, log[i], times[i]))
  }

  function TableKey(contract: Address, k: Orders.OrderKey): RowKey {
    RowKey(k.DcaKey?, (contract, WrapToI64(k.id)))
  }

  function StatusText(s: OrderStatus): string {
    match s
    case Open => "open"
    case Filled => "filled"
    case Cancelled => "cancelled"
    case Expired => "expired"
  }

  /** The row a history of one order leads to. */
  ghost predicate Shows(row: Row, h: seq<Entry>)
    requires h != []
  {
    var (remaining, status) := Orders.Told(h[|h| - 1].event);
    && Orders.IsCreation(h[0].event) && row.terms == ChangeOf(h[0].event).terms
    && row.remaining == Decimal.ToString(remaining)
    && row.status == StatusText(status)
    && row.next == (if h[0].event.DcaCreated? then Some(Orders.NextTold(h)) else None)
    && row.ledger == h[|h| - 1].ledger
    && (row.created.Some? <==> h[0].event.LimitCreated?) && (row.created.Some? ==> row.created.value.0 == h[0].ledger)
  }

  lemma KeysAgree(contract: Address, e: Entry, time: CloseTime, k: Orders.OrderKey)
    ensures var r := Parse(OnWire(contract, e, time));
            && r.Parsed? && r.event.change == ChangeOf(e.event)
            && (Index.KeyOf(r.event) == TableKey(contract, k) <==> Orders.KeyOf(e.event) == k)
  {
    hide Parse, OnWire;
    ParseOfOnWire(contract, e, time);
    ChangeReadBack(e.event);
    WrapToI64Injective(e.event.id, k.id);
  }

  lemma FirstRow(contract: Address, e: Entry, time: CloseTime)
    requires Orders.IsCreation(e.event)
    ensures var r := Parse(OnWire(contract, e, time));
            r.Parsed? && var row := RowStep(None, r.event); row.Some? && Shows(row.value, [e])
  {
    hide Parse, OnWire, Decimal.ToString;
    ParseOfOnWire(contract, e, time);
  }

  lemma NextRow(contract: Address, row: Row, h: seq<Entry>, e: Entry, time: CloseTime)
    requires h != [] && Shows(row, h) && Orders.LeavesOpen(h[|h| - 1].event) && !Orders.IsCreation(e.event)
    requires h[0].event.DcaCreated? <==> IsDca(e.event)
    ensures var r := Parse(OnWire(contract, e, time));
            r.Parsed? && var row' := RowStep(Some(row), r.event); row'.Some? && Shows(row'.value, h + [e])
  {
    hide Parse, OnWire, Decimal.ToString;
    ParseOfOnWire(contract, e, time);
    assert (h + [e])[..|h|] == h;
    assert (h + [e])[0] == h[0];
    assert row.status == "open";
    if e.event.LimitFilled? || e.event.DcaFilled? {
      Decimal.ZeroText(e.event.remaining);
    }
    ZeroIsText();
  }

  lemma ZeroIsText()
    ensures Decimal.ToString(0) == "0"
  {
    Decimal.ZeroText(0);
  }

  /** A history the indexer can follow: created once, and every event but the last leaves the order open. */
  ghost predicate Followable(h: seq<Entry>) {
    h == [] || (Orders.CreatedOnce(h) && forall j :: 0 <= j < |h| - 1 ==> Orders.LeavesOpen(h[j].event))
  }

  lemma FollowableFront(h: seq<Entry>, e: Entry)
    requires Followable(h + [e])
    ensures Followable(h)
    ensures h == [] ==> Orders.IsCreation(e.event)
    ensures h != [] ==> Orders.IsCreation(h[0].event) && Orders.LeavesOpen(h[|h| - 1].event) && !Orders.IsCreation(e.event)
  {
    var g := h + [e];
    assert forall j :: 0 <= j < |h| ==> g[j] == h[j];
    assert g[|h|] == e;
  }

  lemma {:induction false} HistoryIsOfKey(log: seq<Entry>, k: Orders.OrderKey, j: nat)
    requires j < |Orders.History(log, k)|
    ensures Orders.KeyOf(Orders.History(log, k)[j].event) == k
  {
    var front := log[..|log| - 1];
    if j < |Orders.History(front, k)| {
      HistoryIsOfKey(front, k, j);
    }
  }

  /** Folding the feed leaves, for each order, the row its own history leads to. */
  lemma {:induction false} HistoryRow(contract: Address, log: seq<Entry>, times: seq<CloseTime>, k: Orders.OrderKey)
    requires |times| == |log| && Followable(Orders.History(log, k))
    ensures var h, row := Orders.History(log, k), RowFold(None, Wire(contract, log, times), TableKey(contract, k));
            (h == [] <==> row.None?) && (row.Some? ==> Shows(row.value, h))
  {
    hide Parse, OnWire, RowStep, Followable, Shows, TableKey, Index.KeyOf, Orders.KeyOf;
    if log == [] {
    } else {
      var n := |log| - 1;
      var front, e, time := log[..n], log[n], times[n];
      var g := Orders.History(front, k);
      assert Wire(contract, log, times)[..n] == Wire(contract, front, times[..n]);
      KeysAgree(contract, e, time, k);
      if Orders.KeyOf(e.event) == k {
        FollowableFront(g, e);
        HistoryRow(contract, front, times[..n], k);
        if g == [] {
          assert g + [e] == [e];
          FirstRow(contract, e, time);
        } else {
          HistoryIsOfKey(front, k, 0);
          SameKindOfOrder(g[0].event, e.event);
          NextRow(contract, RowFold(None, Wire(contract, front, times[..n]), TableKey(contract, k)).value, g, e, time);
        }
      } else {
        assert g + [] == g;
        HistoryRow(contract, front, times[..n], k);
      }
    }
  }

  lemma SameKindOfOrder(a: EscrowEvent, b: EscrowEvent)
    requires Orders.KeyOf(a) == Orders.KeyOf(b) && Orders.IsCreation(a)
    ensures a.DcaCreated? <==> IsDca(b)
  {
  }

  // ----- Which keys have rows -----

  /** The order a table key names. */
  function OrderOf(key: RowKey): (k: Orders.OrderKey)
    ensures forall contract :: key.id.0 == contract ==> TableKey(contract, k) == key
  {
    var id: uint64 := if key.id.1 < 0 then key.id.1 + U64_MAX + 1 else key.id.1;
    if key.dca then Orders.DcaKey(id) else Orders.LimitKey(id)
  }

  lemma {:induction false} OtherContractsHaveNoRows(contract: Address, log: seq<Entry>, times: seq<CloseTime>, key: RowKey)
    requires |times| == |log| && key.id.0 != contract
    ensures RowFold(None, Wire(contract, log, times), key).None?
  {
    hide Parse, OnWire, RowStep;
    if log == [] {
    } else {
      var n := |log| - 1;
      assert Wire(contract, log, times)[..n] == Wire(contract, log[..n], times[..n]);
      OtherContractsHaveNoRows(contract, log[..n], times[..n], key);
      ParseOfOnWire(contract, log[n], times[n]);
    }
  }

  // ----- Recorded books are followable, and their feeds consistent -----

  lemma RecordedIsFollowable(b: Book, k: Orders.OrderKey)
    requires Orders.Recorded(b)
    ensures Followable(Orders.History(b.log, k))
  {
    hide Orders.CreatedOnce, Orders.Conserved, Orders.FairFills, Orders.Paced, Orders.ExpiredLate, Orders.LeavesOpen;
    match k {
      case LimitKey(id) =>
        if id in b.limits {
          assert Orders.LimitRecorded(Orders.History(b.log, k), id, b.limits[id]);
        }
      case DcaKey(id) =>
        if id in b.dcas {
          assert Orders.DcaRecorded(Orders.History(b.log, k), id, b.dcas[id]);
        }
    }
  }

  /** The history at an earlier time is a prefix, and the next event of the order comes right after it. */
  lemma {:induction false} HistoryOfPrefix(log: seq<Entry>, n: nat, k: Orders.OrderKey)
    requires n <= |log|
    ensures Orders.History(log[..n], k) <= Orders.History(log, k)
    ensures n < |log| && Orders.KeyOf(log[n].event) == k ==>
              var j := |Orders.History(log[..n], k)|;
              j < |Orders.History(log, k)| && Orders.History(log, k)[j] == log[n]
  {
    hide Orders.KeyOf;
    if n == |log| {
      assert log[..n] == log;
    } else {
      var front := log[..|log| - 1];
      if n < |front| {
        HistoryOfPrefix(front, n, k);
        assert front[..n] == log[..n] && front[n] == log[n];
      } else {
        assert front == log[..n];
      }
    }
  }

  lemma PrefixIsFollowable(h: seq<Entry>, g: seq<Entry>)
    requires Followable(h) && g <= h
    ensures Followable(g)
  {
    assert forall j :: 0 <= j < |g| ==> g[j] == h[j];
  }

  lemma {:induction false} LeftOpen(e: EscrowEvent)
    ensures Orders.LeavesOpen(e) <==> Orders.Told(e).1.Open?
    ensures StatusText(Orders.Told(e).1) == "open" <==> Orders.LeavesOpen(e)
  {
  }

  /** In the escrow's own feed every event does something: an order is created once, and updated only while it is open. */
  lemma FeedIsOrderly(contract: Address, b: Book, times: seq<CloseTime>)
    requires Orders.Recorded(b) && |times| == |b.log|
    ensures Skip.Orderly(Wire(contract, b.log, times))
  {
    hide Parse, OnWire, Followable, TableKey, RowFold, Orders.Recorded, Orders.History, Orders.KeyOf, Orders.LeavesOpen;
    var feed := Wire(contract, b.log, times);
    forall j | 0 <= j < |feed|
      ensures Skip.InTurn(feed, j)
    {
      var e := b.log[j];
      var k := Orders.KeyOf(e.event);
      KeysAgree(contract, e, times[j], k);
      var h, g := Orders.History(b.log, k), Orders.History(b.log[..j], k);
      RecordedIsFollowable(b, k);
      HistoryOfPrefix(b.log, j, k);
      PrefixIsFollowable(h, g);
      NextOfFollowable(h, g);
      assert feed[..j] == Wire(contract, b.log[..j], times[..j]);
      HistoryRow(contract, b.log[..j], times[..j], k);
      CreatedIsCreation(e.event);
      if g != [] {
        LeftOpen(g[|g| - 1].event);
      }
    }
  }

  /** What follows a prefix of a followable history: a creation follows nothing, an update what leaves the order open. */
  lemma NextOfFollowable(h: seq<Entry>, g: seq<Entry>)
    requires Followable(h) && g <= h && |g| < |h|
    ensures Orders.IsCreation(h[|g|].event) <==> g == []
    ensures g != [] ==> Orders.LeavesOpen(g[|g| - 1].event)
  {
    assert g != [] ==> g[|g| - 1] == h[|g| - 1];
  }

  /** In particular no update precedes its creation. */
  lemma FeedIsConsistent(contract: Address, b: Book, times: seq<CloseTime>)
    requires Orders.Recorded(b) && |times| == |b.log|
    ensures Consistent(Wire(contract, b.log, times))
  {
    FeedIsOrderly(contract, b, times);
    Skip.OrderlyIsConsistent(Wire(contract, b.log, times));
  }

  // ----- The escrow's feed repeats nothing -----

  /** Recorded histories leave less and less of an order, and announce later and later due dates. */
  lemma RecordedIsTelling(b: Book, k: Orders.OrderKey)
    requires Orders.Recorded(b)
    ensures Orders.Dwindling(Orders.History(b.log, k))
    ensures k.DcaKey? ==> Orders.Rising(Orders.History(b.log, k))
  {
    hide Orders.CreatedOnce, Orders.Conserved, Orders.FairFills, Orders.Paced, Orders.ExpiredLate, Orders.LeavesOpen, Orders.Told,
         Orders.NextTold, Orders.History;
    match k {
      case LimitKey(id) =>
        if id in b.limits {
          assert Orders.LimitRecorded(Orders.History(b.log, k), id, b.limits[id]);
        }
      case DcaKey(id) =>
        if id in b.dcas {
          assert Orders.DcaRecorded(Orders.History(b.log, k), id, b.dcas[id]);
        }
    }
  }

  /** Histories at two times are prefixes one of the other, and an event between them makes the later one longer. */
  lemma HistoriesNest(log: seq<Entry>, p: nat, i: nat, s: nat, k: Orders.OrderKey)
    requires p <= i < s <= |log| && Orders.KeyOf(log[i].event) == k
    ensures Orders.History(log[..p], k) <= Orders.History(log[..s], k) <= Orders.History(log, k)
    ensures |Orders.History(log[..p], k)| < |Orders.History(log[..s], k)|
  {
    hide Orders.KeyOf, Orders.History;
    var t := log[..s];
    assert t[..p] == log[..p] && t[..i] == log[..i] && t[i] == log[i];
    HistoryOfPrefix(log, s, k);
    HistoryOfPrefix(t, p, k);
    HistoryOfPrefix(t, i, k);
    assert t[..i][..p] == log[..p];
    HistoryOfPrefix(t[..i], p, k);
  }

  /** The events of a wire feed are updates of the orders they say. */
  lemma WireUpdate(contract: Address, e: Entry, time: CloseTime, k: Orders.OrderKey)
    requires Regress.IsUpdateOf(OnWire(contract, e, time), TableKey(contract, k))
    ensures Orders.KeyOf(e.event) == k
  {
    hide Parse, OnWire;
    KeysAgree(contract, e, time, k);
  }

  /** In a DCA history whose events up to b leave the order open, the due date rises with every event. */
  lemma {:induction false} DueDatesRise(h: seq<Entry>, a: nat, b: nat)
    requires Orders.Rising(h) && Orders.CreatedOnce(h) && 0 < a < b <= |h|
    requires forall j :: 0 <= j < b ==> Orders.LeavesOpen(h[j].event)
    requires forall j :: 0 <= j < b ==> Orders.KeyOf(h[j].event).DcaKey?
    ensures Orders.NextTold(h[..a]) < Orders.NextTold(h[..b])
    decreases b
  {
    assert h[..b][..b - 1] == h[..b - 1];
    assert h[b - 1].event.DcaFilled?;
    if a < b - 1 {
      DueDatesRise(h, a, b - 1);
    }
  }

  lemma FeedTellsHere(contract: Address, b: Book, times: seq<CloseTime>, p: nat, s: nat, key: RowKey)
    requires Orders.Recorded(b) && |times| == |b.log| && p <= s <= |b.log|
    ensures Skip.Tells(Wire(contract, b.log, times), p, s, key)
  {
    hide Parse, OnWire, Followable, Shows, TableKey, RowFold, Orders.Recorded, Orders.History, Orders.KeyOf, Regress.IsUpdateOf,
         Skip.Rewrites, Orders.LeavesOpen, Orders.Told, Orders.NextTold, Orders.Dwindling, Orders.Rising;
    var feed := Wire(contract, b.log, times);
    PrefixRow(contract, b, times, p, key);
    PrefixRow(contract, b, times, s, key);
    Skip.RewritesAreUpdates(feed, p, s, key);
    if key.id.0 == contract && RowAt(feed, p, key).Some? && Regress.UpdatedIn(feed, p, s, key) {
      var k := OrderOf(key);
      var i :| p <= i < s && Regress.IsUpdateOf(feed[i], key);
      WireUpdate(contract, b.log[i], times[i], k);
      HistoriesNest(b.log, p, i, s, k);
      RecordedIsFollowable(b, k);
      RecordedIsTelling(b, k);
      var h := Orders.History(b.log, k);
      var was, now := Orders.History(b.log[..p], k), Orders.History(b.log[..s], k);
      RowsDiffer(RowAt(feed, p, key).value, RowAt(feed, s, key).value, h, was, now);
      if Skip.RewrittenIn(feed, p, s, key) && IsOpen(RowAt(feed, s, key)) {
        var f :| p <= f < s && Skip.Rewrites(feed[f], key);
        RewriteIsDca(contract, b.log[f], times[f], k);
        DatesDiffer(RowAt(feed, p, key).value, RowAt(feed, s, key).value, b.log, k, h, was, now);
      }
    }
  }

  lemma RewriteIsDca(contract: Address, e: Entry, time: CloseTime, k: Orders.OrderKey)
    requires Skip.Rewrites(OnWire(contract, e, time), TableKey(contract, k))
    ensures k.DcaKey?
  {
    hide Parse, OnWire, WrapToI64;
  }

  /** The row of a prefix of the feed is the one its own histories lead to. */
  lemma PrefixRow(contract: Address, b: Book, times: seq<CloseTime>, p: nat, key: RowKey)
    requires Orders.Recorded(b) && |times| == |b.log| && p <= |b.log|
    ensures var row, g := RowAt(Wire(contract, b.log, times), p, key), Orders.History(b.log[..p], OrderOf(key));
            && (key.id.0 != contract ==> row.None?)
            && (key.id.0 == contract ==> (row.None? <==> g == []) && (row.Some? ==> Shows(row.value, g)))
  {
    hide Parse, OnWire, Followable, Shows, TableKey, RowFold, Orders.Recorded, Orders.History;
    var feed := Wire(contract, b.log, times);
    assert feed[..p] == Wire(contract, b.log[..p], times[..p]);
    if key.id.0 != contract {
      OtherContractsHaveNoRows(contract, b.log[..p], times[..p], key);
    } else {
      var k := OrderOf(key);
      RecordedIsFollowable(b, k);
      HistoryOfPrefix(b.log, p, k);
      PrefixIsFollowable(Orders.History(b.log, k), Orders.History(b.log[..p], k));
      HistoryRow(contract, b.log[..p], times[..p], k);
    }
  }

  /** A longer history shows less remaining. */
  lemma RowsDiffer(row: Row, row': Row, h: seq<Entry>, g: seq<Entry>, g': seq<Entry>)
    requires Orders.Dwindling(h) && g <= g' <= h && 0 < |g| < |g'|
    requires Shows(row, g) && Shows(row', g')
    ensures row.remaining != row'.remaining
  {
    hide Decimal.ToString, Orders.IsCreation, Orders.NextTold;
    assert g[|g| - 1] == h[|g| - 1] && g'[|g'| - 1] == h[|g'| - 1];
    var less, more := Orders.Told(g'[|g'| - 1].event).0, Orders.Told(g[|g| - 1].event).0;
    assert less < more;
    TextsDiffer(less, more);
  }

  lemma TextsDiffer(a: nat, b: nat)
    ensures Decimal.ToString(a) == Decimal.ToString(b) <==> a == b
  {
    Decimal.DigitsInjective(a, b);
  }

  /** A longer history of a DCA order that is still open shows a later due date. */
  lemma DatesDiffer(row: Row, row': Row, log: seq<Entry>, k: Orders.OrderKey, h: seq<Entry>, g: seq<Entry>, g': seq<Entry>)
    requires h == Orders.History(log, k) && k.DcaKey? && Followable(h)
    requires Orders.Rising(h) && g <= g' <= h && 0 < |g| < |g'|
    requires Shows(row, g) && Shows(row', g') && IsOpen(Some(row'))
    ensures row.next != row'.next
  {
    hide Decimal.ToString, Orders.History, Orders.LeavesOpen;
    assert g == h[..|g|] && g' == h[..|g'|];
    LeftOpen(g'[|g'| - 1].event);
    forall j | 0 <= j < |h|
      ensures Orders.KeyOf(h[j].event).DcaKey?
    {
      HistoryIsOfKey(log, k, j);
    }
    assert forall j :: 0 <= j < |g'| ==> g'[j] == h[j];
    DueDatesRise(h, |g|, |g'|);
    assert g[0] == h[0] && g'[0] == h[0];
  }

  lemma FeedIsTelling(contract: Address, b: Book, times: seq<CloseTime>)
    requires Orders.Recorded(b) && |times| == |b.log|
    ensures Skip.Telling(Wire(contract, b.log, times))
  {
    hide Orders.Recorded, Wire, Skip.Tells;
    var feed := Wire(contract, b.log, times);
    WireLength(contract, b.log, times);
    forall p: nat, s: nat, k | p <= s <= |feed|
      ensures Skip.Tells(feed, p, s, k)
    {
      FeedTellsHere(contract, b, times, p, s, k);
    }
  }

  lemma WireLength(contract: Address, log: seq<Entry>, times: seq<CloseTime>)
    requires |times| == |log|
    ensures |Wire(contract, log, times)| == |log|
  {
  }

  /** A backfill past the cursor against the contract itself: after it, and whatever follows it past the gap, the tables are
      the clean pass over the escrow's events if and only if the gap created no order, every order it updated was updated again
      in what was read, and every DCA order it filled was filled again there. */
  lemma SkippedOrdersExactly(contract: Address, w: World, calls: seq<Call>, times: seq<CloseTime>, s: State, from: uint32,
                             latest: uint32, budget: Option<nat>, rest: seq<Action>)
    requires Initial(w) && AllSigned(calls) && |times| == |Run(w, calls).book.log|
    requires var feed := Wire(contract, Run(w, calls).book.log, times);
             && Clean(feed, s) && s.cursor <= from && 0 < from < latest
             && Survives(Fetch(feed, from, BatchEnd(from, latest)), budget)
             && SkipRuns.StaysPast(rest, from) && SafeRun(feed, Backfill(feed, s, from, latest, budget), rest)
             && var c := Acts(feed, Backfill(feed, s, from, latest, budget), rest).cursor;
                latest <= c && Within(rest, c)
    ensures var feed := Wire(contract, Run(w, calls).book.log, times);
            var r := Acts(feed, Backfill(feed, s, from, latest, budget), rest);
            var p, g, e := Before(feed, s.cursor), Before(feed, from), Before(feed, r.cursor);
            && p <= g <= e
            && (Clean(feed, r) <==> forall k :: Skip.MadeUp(feed, p, g, e, k))
  {
    hide Run, Wire, Acts, Backfill, Before, Clean, SafeRun, Skip.Orderly, Skip.Telling, Skip.CaughtUp, Skip.MadeUp, SkipRuns.StaysPast, Within, Fetch,
         Orders.Recorded;
    OrderRuns.RunRecorded(w, calls);
    var b := Run(w, calls).book;
    var feed := Wire(contract, b.log, times);
    FeedIsOrderly(contract, b, times);
    FeedIsTelling(contract, b, times);
    SkipRuns.SkippedBackfillExactly(feed, s, from, latest, budget, rest);
    var r := Acts(feed, Backfill(feed, s, from, latest, budget), rest);
    var p, g, e := Before(feed, s.cursor), Before(feed, from), Before(feed, r.cursor);
    forall k
      ensures Skip.CaughtUp(feed, p, g, e, k) <==> Skip.MadeUp(feed, p, g, e, k)
    {
      Skip.CaughtUpMeans(feed, p, g, e, k);
    }
  }

  lemma CreatedIsCreation(e: EscrowEvent)
    ensures ChangeOf(e).Created? <==> Orders.IsCreation(e)
  {
  }

  // ----- The refinement -----

  ghost predicate ShowsLimit(row: Row, initial: Amount, o: LimitOrder) {
    && row.terms == LimitTerms(o.owner, o.tokenIn, o.tokenOut, Decimal.ToString(initial), Decimal.ToString(o.limit), o.expires)
    && row.remaining == Decimal.ToString(o.remaining) && row.status == StatusText(o.status) && row.next == None
  }

  ghost predicate ShowsDca(row: Row, initial: Amount, o: DcaOrder) {
    && row.terms == DcaTerms(o.owner, o.tokenIn, o.tokenOut, Decimal.ToString(initial), Decimal.ToString(o.chunk), o.interval,
                             Decimal.ToString(o.minRate), o.expires)
    && row.remaining == Decimal.ToString(o.remaining) && row.status == StatusText(o.status) && row.next == Some(o.next)
  }

  ghost predicate MirrorsLimit(t: Tables, contract: Address, b: Book, id: uint64) {
    var k := Orders.LimitKey(id);
    var row := Lookup(t, TableKey(contract, k));
    && (row.Some? <==> id in b.limits)
    && (row.Some? ==> ShowsLimit(row.value, Orders.InitialOf(Orders.History(b.log, k)), b.limits[id]))
  }

  ghost predicate MirrorsDca(t: Tables, contract: Address, b: Book, id: uint64) {
    var k := Orders.DcaKey(id);
    var row := Lookup(t, TableKey(contract, k));
    && (row.Some? <==> id in b.dcas)
    && (row.Some? ==> ShowsDca(row.value, Orders.InitialOf(Orders.History(b.log, k)), b.dcas[id]))
  }

  /** The tables are the book: a row for every order and no other row, and each row says what the contract stores. */
  ghost predicate Mirrors(t: Tables, contract: Address, b: Book) {
    && (forall key :: Lookup(t, key).Some? ==> key.id.0 == contract)
    && (forall id: uint64 :: MirrorsLimit(t, contract, b, id) && MirrorsDca(t, contract, b, id))
  }

  lemma LimitRowMirrors(contract: Address, b: Book, times: seq<CloseTime>, id: uint64)
    requires Orders.Recorded(b) && |times| == |b.log|
    ensures var k := Orders.LimitKey(id);
            var row := RowFold(None, Wire(contract, b.log, times), TableKey(contract, k));
            && (row.Some? <==> id in b.limits)
            && (row.Some? ==> ShowsLimit(row.value, Orders.InitialOf(Orders.History(b.log, k)), b.limits[id]))
  {
    hide Wire, TableKey, RowFold, Orders.History, Orders.Conserved, Orders.FairFills, Orders.ExpiredLate, Decimal.ToString,
         Orders.DcaRecorded;
    RecordedIsFollowable(b, Orders.LimitKey(id));
    HistoryRow(contract, b.log, times, Orders.LimitKey(id));
  }

  lemma DcaRowMirrors(contract: Address, b: Book, times: seq<CloseTime>, id: uint64)
    requires Orders.Recorded(b) && |times| == |b.log|
    ensures var k := Orders.DcaKey(id);
            var row := RowFold(None, Wire(contract, b.log, times), TableKey(contract, k));
            && (row.Some? <==> id in b.dcas)
            && (row.Some? ==> ShowsDca(row.value, Orders.InitialOf(Orders.History(b.log, k)), b.dcas[id]))
  {
    hide Wire, TableKey, RowFold, Orders.History, Orders.Conserved, Orders.FairFills, Orders.ExpiredLate, Orders.Paced,
         Decimal.ToString, Orders.LimitRecorded;
    RecordedIsFollowable(b, Orders.DcaKey(id));
    HistoryRow(contract, b.log, times, Orders.DcaKey(id));
  }

  /** The index refines the contract: after any run of the system, folding the events the escrow published gives exactly
      the orders it stores. */
  lemma FoldMirrors(contract: Address, w: World, calls: seq<Call>, times: seq<CloseTime>)
    requires Initial(w) && AllSigned(calls) && |times| == |Run(w, calls).book.log|
    ensures var b := Run(w, calls).book;
            Mirrors(Fold(EMPTY, Wire(contract, b.log, times)), contract, b)
  {
    hide Wire, Fold, RowFold, TableKey, Run, Orders.Recorded, ShowsLimit, ShowsDca, Orders.History, Orders.InitialOf;
    OrderRuns.RunRecorded(w, calls);
    var b := Run(w, calls).book;
    var feed := Wire(contract, b.log, times);
    var t := Fold(EMPTY, feed);
    forall key | Lookup(t, key).Some?
      ensures key.id.0 == contract
    {
      FoldIsRowFold(EMPTY, feed, key);
      if key.id.0 != contract {
        OtherContractsHaveNoRows(contract, b.log, times, key);
      }
    }
    forall id: uint64
      ensures MirrorsLimit(t, contract, b, id) && MirrorsDca(t, contract, b, id)
    {
      FoldIsRowFold(EMPTY, feed, TableKey(contract, Orders.LimitKey(id)));
      LimitRowMirrors(contract, b, times, id);
      FoldIsRowFold(EMPTY, feed, TableKey(contract, Orders.DcaKey(id)));
      DcaRowMirrors(contract, b, times, id);
    }
  }

  /** Transactions land in ledger order. */
  ghost predicate Timely(calls: seq<Call>) {
    forall i, j :: 0 <= i < j < |calls| ==> calls[i].now <= calls[j].now
  }

  ghost predicate Publishes(log: seq<Entry>, log': seq<Entry>, now: uint32) {
    log' == log || exists e: Entry :: e.ledger == now && log' == log + [e]
  }

  predicate IsLimitOp(op: Op) {
    op.CreateLimit? || op.Fill? || op.Cancel? || op.Reclaim?
  }

  lemma LimitCallPublishes(w: World, call: Call)
    requires IsLimitOp(call.op)
    ensures Publishes(w.book.log, Exec(w, call).book.log, call.now)
  {
    hide Ledger.Transfer, SwapForOwner, CheckFill;
    if Attempt(w, call).Ok? {
      var log' := Exec(w, call).book.log;
      assert log' == w.book.log + [log'[|w.book.log|]];
    }
  }

  lemma DcaCallPublishes(w: World, call: Call)
    requires call.op.CreateDca? || call.op.FillDca? || call.op.CancelDca? || call.op.ReclaimDca?
    ensures Publishes(w.book.log, Exec(w, call).book.log, call.now)
  {
    hide Ledger.Transfer, SwapForOwner, CheckDca, CheckFillDca;
    if Attempt(w, call).Ok? {
      var log' := Exec(w, call).book.log;
      assert log' == w.book.log + [log'[|w.book.log|]];
    }
  }

  /** A call publishes at most one event, in the ledger it lands in. */
  lemma CallPublishes(w: World, call: Call)
    ensures Publishes(w.book.log, Exec(w, call).book.log, call.now)
  {
    if Runs.IsOrderOp(call.op) {
      if IsLimitOp(call.op) {
        LimitCallPublishes(w, call);
      } else {
        DcaCallPublishes(w, call);
      }
    } else {
      OtherCallPublishes(w, call);
    }
  }

  lemma OtherCallPublishes(w: World, call: Call)
    requires !Runs.IsOrderOp(call.op)
    ensures Publishes(w.book.log, Exec(w, call).book.log, call.now)
  {
    hide Attempt;
    if Attempt(w, call).Ok? {
      Runs.OtherCallKeepsBook(w, call, Exec(w, call));
    }
  }

  ghost predicate InOrder(log: seq<Entry>) {
    forall i, j :: 0 <= i < j < |log| ==> log[i].ledger <= log[j].ledger
  }

  ghost predicate UpTo(log: seq<Entry>, now: uint32) {
    forall i :: 0 <= i < |log| ==> log[i].ledger <= now
  }

  lemma {:induction false} LogIsSorted(w: World, calls: seq<Call>)
    requires Initial(w) && Timely(calls)
    ensures InOrder(Run(w, calls).book.log)
    ensures if calls == [] then Run(w, calls).book.log == [] else UpTo(Run(w, calls).book.log, calls[|calls| - 1].now)
  {
    hide Exec;
    if calls == [] {
    } else {
      var front, last := calls[..|calls| - 1], calls[|calls| - 1];
      LogIsSorted(w, front);
      CallPublishes(Run(w, front), last);
      assert front != [] ==> front[|front| - 1] == calls[|front| - 1];
      assert UpTo(Run(w, front).book.log, last.now);
    }
  }

  /** What the RPC serves of a run whose transactions land in order is sorted, so a fetch is exactly a ledger range. */
  lemma FeedIsSorted(contract: Address, w: World, calls: seq<Call>, times: seq<CloseTime>)
    requires Initial(w) && Timely(calls) && |times| == |Run(w, calls).book.log|
    ensures Sorted(Wire(contract, Run(w, calls).book.log, times))
  {
    hide Run;
    LogIsSorted(w, calls);
  }

  /** Whatever crashes, retries and safe backfills happened on the way, polling past the last event shows exactly the
      contract's orders. */
  lemma IndexShowsOrders(contract: Address, w: World, calls: seq<Call>, times: seq<CloseTime>, from: uint32,
                         actions: seq<Action>, L: uint32, n: nat)
    requires Initial(w) && AllSigned(calls) && |times| == |Run(w, calls).book.log|
    requires var log := Run(w, calls).book.log; forall i :: 0 <= i < |log| ==> from <= log[i].ledger < L
    requires from <= L && Within(actions, L)
    requires var feed := Wire(contract, Run(w, calls).book.log, times);
             && SafeRun(feed, State(EMPTY, from), actions)
             && var c := Acts(feed, State(EMPTY, from), actions).cursor; 0 < c <= L && c + n * 10_000 >= L
    ensures var b := Run(w, calls).book;
            var feed := Wire(contract, b.log, times);
            Mirrors(Polls(feed, Acts(feed, State(EMPTY, from), actions), L, n).tables, contract, b)
  {
    hide Run, Fold, Polls, Acts, SafeRun, Mirrors, Consistent, OnWire;
    var b := Run(w, calls).book;
    var feed := Wire(contract, b.log, times);
    OrderRuns.RunRecorded(w, calls);
    FeedIsConsistent(contract, b, times);
    EventsInRange(contract, b.log, times, from, L);
    NothingFolded();
    PollingRecovers(feed, State(EMPTY, from), actions, L, n);
    assert feed[..|feed|] == feed;
    FoldMirrors(contract, w, calls, times);
  }

  lemma NothingFolded()
    ensures Fold(EMPTY, []) == EMPTY
  {
  }

  lemma EventsInRange(contract: Address, log: seq<Entry>, times: seq<CloseTime>, from: uint32, L: uint32)
    requires |times| == |log| && forall i :: 0 <= i < |log| ==> from <= log[i].ledger < L
    ensures var feed := Wire(contract, log, times); Before(feed, from) == 0 && Before(feed, L) == |feed|
  {
    var feed := Wire(contract, log, times);
    assert forall i :: 0 <= i < |feed| ==> from <= feed[i].ledger < L;
  }

  // ----- Any run of the index -----

  /** Every order of the book was read right: see `ReadOrder.InOrder`. */
  ghost predicate AllReadRight(feed: seq<ContractEvent>, q: seq<nat>, contract: Address, b: Book)
    requires forall i :: 0 <= i < |q| ==> q[i] < |feed|
  {
    && (forall id: uint64 :: id in b.limits ==> ReadOrder.ReadRight(feed, q, |feed|, TableKey(contract, Orders.LimitKey(id))))
    && (forall id: uint64 :: id in b.dcas ==> ReadOrder.ReadRight(feed, q, |feed|, TableKey(contract, Orders.DcaKey(id))))
  }

  /** For every run of the contracts and every run of the indexer, from any cursor, with any polls, crashes, retries and
      backfills: the tables are exactly the contract's orders if and only if every order was read right. */
  lemma IndexMirrorsExactly(contract: Address, w: World, calls: seq<Call>, times: seq<CloseTime>, cursor: uint32,
                            actions: seq<Action>)
    requires Initial(w) && AllSigned(calls) && |times| == |Run(w, calls).book.log|
    ensures var b := Run(w, calls).book;
            var feed := Wire(contract, b.log, times);
            Mirrors(Acts(feed, State(EMPTY, cursor), actions).tables, contract, b) <==>
            AllReadRight(feed, ReadOrder.Reads(feed, State(EMPTY, cursor), actions), contract, b)
  {
    hide Run, Wire, Fold, Acts, ReadOrder.Reads, ReadOrder.At, ReadOrder.ReadRight, ReadOrder.ReadRow, TableKey, Orders.Recorded, Skip.Orderly,
         Skip.Telling, MirrorsLimit, MirrorsDca, Lookup;
    OrderRuns.RunRecorded(w, calls);
    var b := Run(w, calls).book;
    var feed := Wire(contract, b.log, times);
    var q := ReadOrder.Reads(feed, State(EMPTY, cursor), actions);
    var t := Acts(feed, State(EMPTY, cursor), actions).tables;
    FeedIsOrderly(contract, b, times);
    FeedIsTelling(contract, b, times);
    ReadOrder.RunAppliesReads(feed, State(EMPTY, cursor), actions);
    forall key
      ensures Lookup(t, key) == ReadOrder.ReadRow(feed, q, key)
      ensures Lookup(t, key).Some? ==> key.id.0 == contract
    {
      ReadOrder.ReadRowIs(feed, q, key);
      if key.id.0 != contract {
        OthersUnread(contract, b, times, q, key);
      }
    }
    forall id: uint64
      ensures MirrorsLimit(t, contract, b, id) <==>
              (id in b.limits ==> ReadOrder.ReadRight(feed, q, |feed|, TableKey(contract, Orders.LimitKey(id))))
      ensures MirrorsDca(t, contract, b, id) <==>
              (id in b.dcas ==> ReadOrder.ReadRight(feed, q, |feed|, TableKey(contract, Orders.DcaKey(id))))
    {
      LimitMirrorsExactly(contract, b, times, t, q, id);
      DcaMirrorsExactly(contract, b, times, t, q, id);
    }
  }

  lemma OthersUnread(contract: Address, b: Book, times: seq<CloseTime>, q: seq<nat>, key: RowKey)
    requires Orders.Recorded(b) && |times| == |b.log| && key.id.0 != contract
    requires var feed := Wire(contract, b.log, times); Skip.Orderly(feed) && forall i :: 0 <= i < |q| ==> q[i] < |feed|
    ensures ReadOrder.ReadRow(Wire(contract, b.log, times), q, key).None?
  {
    hide Wire, RowFold, Skip.Orderly, Orders.Recorded, ReadOrder.ReadRow;
    var feed := Wire(contract, b.log, times);
    OtherContractsHaveNoRows(contract, b.log, times, key);
    assert feed[..|feed|] == feed;
    ReadOrder.NeverRead(feed, q, |feed|, key);
  }

  lemma LimitMirrorsExactly(contract: Address, b: Book, times: seq<CloseTime>, t: Tables, q: seq<nat>, id: uint64)
    requires Orders.Recorded(b) && |times| == |b.log|
    requires var feed := Wire(contract, b.log, times);
             && Skip.Orderly(feed) && Skip.Telling(feed) && (forall i :: 0 <= i < |q| ==> q[i] < |feed|)
             && var key := TableKey(contract, Orders.LimitKey(id)); Lookup(t, key) == ReadOrder.ReadRow(feed, q, key)
    ensures MirrorsLimit(t, contract, b, id) <==>
            (id in b.limits ==>
               ReadOrder.ReadRight(Wire(contract, b.log, times), q, |b.log|, TableKey(contract, Orders.LimitKey(id))))
  {
    hide Wire, RowFold, TableKey, Skip.Orderly, Skip.Telling, Orders.Recorded, Orders.History, Orders.InitialOf, ReadOrder.ReadRow,
         ReadOrder.ReadRight, Lookup, Decimal.ToString;
    var feed, key := Wire(contract, b.log, times), TableKey(contract, Orders.LimitKey(id));
    WireLength(contract, b.log, times);
    assert feed[..|feed|] == feed;
    LimitRowMirrors(contract, b, times, id);
    if id !in b.limits {
      ReadOrder.NeverRead(feed, q, |feed|, key);
    } else if ReadOrder.ReadRight(feed, q, |feed|, key) {
      ReadOrder.RightIsClean(feed, q, |feed|, key);
    } else if MirrorsLimit(t, contract, b, id) {
      ReadOrder.AlikeIsRight(feed, q, |feed|, key);
    }
  }

  lemma DcaMirrorsExactly(contract: Address, b: Book, times: seq<CloseTime>, t: Tables, q: seq<nat>, id: uint64)
    requires Orders.Recorded(b) && |times| == |b.log|
    requires var feed := Wire(contract, b.log, times);
             && Skip.Orderly(feed) && Skip.Telling(feed) && (forall i :: 0 <= i < |q| ==> q[i] < |feed|)
             && var key := TableKey(contract, Orders.DcaKey(id)); Lookup(t, key) == ReadOrder.ReadRow(feed, q, key)
    ensures MirrorsDca(t, contract, b, id) <==>
            (id in b.dcas ==>
               ReadOrder.ReadRight(Wire(contract, b.log, times), q, |b.log|, TableKey(contract, Orders.DcaKey(id))))
  {
    hide Wire, RowFold, TableKey, Skip.Orderly, Skip.Telling, Orders.Recorded, Orders.History, Orders.InitialOf, ReadOrder.ReadRow,
         ReadOrder.ReadRight, Lookup, Decimal.ToString;
    var feed, key := Wire(contract, b.log, times), TableKey(contract, Orders.DcaKey(id));
    WireLength(contract, b.log, times);
    assert feed[..|feed|] == feed;
    DcaRowMirrors(contract, b, times, id);
    if id !in b.dcas {
      ReadOrder.NeverRead(feed, q, |feed|, key);
    } else if ReadOrder.ReadRight(feed, q, |feed|, key) {
      ReadOrder.RightIsClean(feed, q, |feed|, key);
    } else if MirrorsDca(t, contract, b, id) {
      ReadOrder.AlikeIsRight(feed, q, |feed|, key);
    }
  }
}
