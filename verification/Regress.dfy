// What a backfill that dies below the cursor does to the order tables, exactly.

module Regress {
  import opened Base
  import opened EscrowModel
  import opened Index
  import opened Ingest
  import opened OrderEvents
  import opened ScVal
  import Decimal

  predicate IsUpdateOf(v: ContractEvent, k: RowKey) {
    var r := Parse(v);
    r.Parsed? && KeyOf(r.event) == k && !r.event.change.Created?
  }

  predicate UpdatedIn(feed: seq<ContractEvent>, s: nat, e: nat, k: RowKey)
    requires s <= e <= |feed|
  {
    exists i :: s <= i < e && IsUpdateOf(feed[i], k)
  }

  /** Replaying an update on a row that is further along: an open row goes back to the update, a closed one stays. */
  lemma ReplayedUpdate(feed: seq<ContractEvent>, e: nat, p: nat, k: RowKey, row: Option<Row>)
    requires e < p <= |feed| && Consistent(feed)
    requires row == RowAt(feed, p, k) || row == RowAt(feed, e, k)
    ensures IsOpen(RowAt(feed, p, k)) && IsUpdateOf(feed[e], k) ==> RowWire(row, feed[e], k) == RowAt(feed, e + 1, k)
    ensures !IsUpdateOf(feed[e], k) || !IsOpen(RowAt(feed, p, k)) ==>
              RowWire(RowAt(feed, p, k), feed[e], k) == RowAt(feed, p, k)
  {
    hide Parse, RowFold, WrapToI64, NeverCreated;
    assert CreatedBefore(feed, e);
    RowAtNext(feed, e, k);
    if RowAt(feed, e, k).None? && NeverCreated(feed, e, k) {
      StaysMissing(feed, e, p, k);
    }
    LaterRow(feed, e, p, k);
    LaterRow(feed, e + 1, p, k);
    LaterRow(feed, e, e, k);
  }

  /** The exact effect on one row of replaying events s to e, all before the cursor: an order open at the cursor and
      updated in the replayed part goes back to its state after event e; every other order keeps its row. */
  lemma {:induction false} InterruptedRow(feed: seq<ContractEvent>, p: nat, s: nat, e: nat, k: RowKey)
    requires s <= e <= p <= |feed| && Consistent(feed)
    ensures RowFold(RowAt(feed, p, k), feed[s..e], k)
            == if IsOpen(RowAt(feed, p, k)) && UpdatedIn(feed, s, e, k) then RowAt(feed, e, k) else RowAt(feed, p, k)
    decreases e
  {
    hide RowWire, RowAt, Consistent, IsOpen, IsUpdateOf;
    if e == s {
      assert feed[s..e] == [];
    } else {
      InterruptedRow(feed, p, s, e - 1, k);
      assert feed[s..e][..e - 1 - s] == feed[s..e - 1];
      assert feed[s..e][e - 1 - s] == feed[e - 1];
      RowAtNext(feed, e - 1, k);
      ReplayedUpdate(feed, e - 1, p, k, RowFold(RowAt(feed, p, k), feed[s..e - 1], k));
    }
  }

  /** A batch that starts below the cursor and dies before reaching it keeps the tables clean exactly when no order that is
      open at the cursor, and was updated in the part replayed, has changed since. */
  lemma InterruptedBatchExactly(feed: seq<ContractEvent>, s: State, start: uint32, end: uint32, budget: nat)
    requires Consistent(feed) && Clean(feed, s) && start <= end
    requires !Survives(Fetch(feed, start, end), Some(budget)) && Before(feed, start) + budget <= Before(feed, s.cursor)
    ensures var p, from := Before(feed, s.cursor), Before(feed, start);
            Clean(feed, Batch(feed, s, start, end, Some(budget))) <==>
            forall k :: IsOpen(RowAt(feed, p, k)) && UpdatedIn(feed, from, from + budget, k) ==>
                          RowAt(feed, from + budget, k) == RowAt(feed, p, k)
  {
    hide RowAt, Consistent, IsOpen, UpdatedIn, Before, Fold, RowFold, CleanPass;
    var p, from := Before(feed, s.cursor), Before(feed, start);
    var e := from + budget;
    BeforeMonotone(feed, start, end);
    var t := Batch(feed, s, start, end, Some(budget)).tables;
    assert Fetch(feed, start, end)[..budget] == feed[from..e];
    forall k
      ensures Lookup(t, k) == (if IsOpen(RowAt(feed, p, k)) && UpdatedIn(feed, from, e, k) then RowAt(feed, e, k) else RowAt(feed, p, k))
      ensures Lookup(CleanPass(feed, p), k) == RowAt(feed, p, k)
    {
      CleanRow(feed, p, k);
      FoldIsRowFold(s.tables, feed[from..e], k);
      InterruptedRow(feed, p, from, e, k);
    }
    if forall k :: IsOpen(RowAt(feed, p, k)) && UpdatedIn(feed, from, e, k) ==> RowAt(feed, e, k) == RowAt(feed, p, k) {
      SameRowsSameTables(t, CleanPass(feed, p));
    }
  }

  // ----- A concrete case -----

  /** An order of 100 filled twice, by 40 and then by 30. */
  function TwoFills(): (feed: seq<ContractEvent>)
    ensures |feed| == 3
  {
    var owner, a, b, escrow := Account(1), Contract(1), Contract(2), Contract(3);
    [OnWire(escrow, Entry(1, LimitCreated(0, owner, a, b, 100, RATE_SCALE, 500)), NoTime),
     OnWire(escrow, Entry(2, LimitFilled(0, owner, 40, 40, 60)), NoTime),
     OnWire(escrow, Entry(3, LimitFilled(0, owner, 30, 30, 30)), NoTime)]
  }

  const K := RowKey(false, (Contract(3), 0))

  lemma TwoFillsParse(i: nat)
    requires i < 3
    ensures var r := Parse(TwoFills()[i]);
            && r.Parsed? && KeyOf(r.event) == K
            && (i == 0 ==> r.event.change.Created? && r.event.change.terms.amountIn == Decimal.ToString(100))
            && (i == 1 ==> r.event.change == FilledTo(Decimal.ToString(60)))
            && (i == 2 ==> r.event.change == FilledTo(Decimal.ToString(30)))
    ensures TwoFills()[i].ledger == i + 1
  {
    hide Parse, Decimal.ToString;
    var owner, a, b, escrow := Account(1), Contract(1), Contract(2), Contract(3);
    ParseOfOnWire(escrow, Entry(1, LimitCreated(0, owner, a, b, 100, RATE_SCALE, 500)), NoTime);
    ParseOfOnWire(escrow, Entry(2, LimitFilled(0, owner, 40, 40, 60)), NoTime);
    ParseOfOnWire(escrow, Entry(3, LimitFilled(0, owner, 30, 30, 30)), NoTime);
  }

  lemma TwoFillsRows()
    ensures Consistent(TwoFills())
    ensures var r := RowAt(TwoFills(), 1, K); IsOpen(r) && r.value.remaining == Decimal.ToString(100)
    ensures var r := RowAt(TwoFills(), 2, K); IsOpen(r) && r.value.remaining == Decimal.ToString(60)
    ensures var r := RowAt(TwoFills(), 3, K); IsOpen(r) && r.value.remaining == Decimal.ToString(30)
    ensures UpdatedIn(TwoFills(), 0, 2, K)
  {
    hide Parse, Decimal.ToString, WrapToI64, KeyOf, RowFold, RowAt;
    var feed := TwoFills();
    NothingYet(feed, K);
    TwoFillsParse(0);
    TwoFillsParse(1);
    TwoFillsParse(2);
    RowAtNext(feed, 0, K);
    RowAtNext(feed, 1, K);
    RowAtNext(feed, 2, K);
    Decimal.ZeroText(60);
    Decimal.ZeroText(30);
    assert IsUpdateOf(feed[1], K);
  }

  lemma TwoFillsPositions()
    ensures Before(TwoFills(), 1) == 0 && Before(TwoFills(), 2) == 1 && Before(TwoFills(), 10) == 3
    ensures forall L: uint32 :: L >= 4 ==> Before(TwoFills(), L) == 3
  {
    hide Parse;
    var feed := TwoFills();
    assert feed[0].ledger == 1 && feed[1].ledger == 2 && feed[2].ledger == 3;
  }

  lemma PollFindsNothing(s: State, poll: Action)
    requires s.cursor >= 4 && poll.Polled?
    ensures Act(TwoFills(), s, poll).tables == s.tables && Act(TwoFills(), s, poll).cursor >= 4
  {
    hide TwoFills, Before;
    TwoFillsPositions();
  }

  lemma {:induction false} PollsFindNothing(s: State, polls: seq<Action>)
    requires s.cursor >= 4 && forall i :: 0 <= i < |polls| ==> polls[i].Polled?
    ensures Acts(TwoFills(), s, polls).tables == s.tables && Acts(TwoFills(), s, polls).cursor >= 4
  {
    hide TwoFills, Act;
    if polls == [] {
    } else {
      PollsFindNothing(s, polls[..|polls| - 1]);
      PollFindsNothing(Acts(TwoFills(), s, polls[..|polls| - 1]), polls[|polls| - 1]);
    }
  }

  /** The backfill that dies after two events, applied to the clean tables. */
  lemma DyingBackfill(t: Tables)
    ensures var feed := TwoFills();
            Backfill(feed, State(t, 4), 1, 10, Some(2)) == State(Fold(t, feed[0..2]), 4)
  {
    hide TwoFills, Fold, Before;
    TwoFillsPositions();
    assert TwoFills()[0..3][..2] == TwoFills()[0..2];
  }

  /** A backfill that dies below the cursor can leave an order behind for good: here the clean tables say 30 is left, the
      interrupted backfill takes the row back to 60, and however often the indexer polls afterwards it stays there. */
  lemma BackfillCanRegress(polls: seq<Action>)
    requires forall i :: 0 <= i < |polls| ==> polls[i].Polled?
    ensures var feed := TwoFills();
            var s := State(CleanPass(feed, 3), 4);
            var s' := Acts(feed, Backfill(feed, s, 1, 10, Some(2)), polls);
            && Clean(feed, s) && s'.cursor >= 4
            && Lookup(s.tables, K).Some? && Lookup(s.tables, K).value.remaining == Decimal.ToString(30)
            && Lookup(s'.tables, K).Some? && Lookup(s'.tables, K).value.remaining == Decimal.ToString(60)
            && s'.tables != s.tables
  {
    hide TwoFills, Fold, RowFold, RowAt, Backfill, Acts, Before, Decimal.ToString;
    var feed := TwoFills();
    var s := State(CleanPass(feed, 3), 4);
    TwoFillsPositions();
    TwoFillsRows();
    CleanRow(feed, 3, K);
    FoldIsRowFold(s.tables, feed[0..2], K);
    InterruptedRow(feed, 3, 0, 2, K);
    DyingBackfill(s.tables);
    PollsFindNothing(Backfill(feed, s, 1, 10, Some(2)), polls);
    TextsDiffer();
  }

  lemma TextsDiffer()
    ensures Decimal.ToString(60) != Decimal.ToString(30)
  {
    Decimal.DigitsInjective(60, 30);
  }
}
