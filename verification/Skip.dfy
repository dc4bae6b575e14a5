// What reading ahead of a gap in the feed does to an order's row, exactly.

module Skip {
  import opened Base
  import opened Index
  import opened OrderEvents
  import opened ScVal
  import Regress

  /** Every event does something in one clean pass: an order is created once, and updated only while it is open. */
  ghost predicate Orderly(feed: seq<ContractEvent>) {
    forall j :: 0 <= j < |feed| ==> InTurn(feed, j)
  }

  ghost predicate InTurn(feed: seq<ContractEvent>, j: nat)
    requires j < |feed|
  {
    var r := Parse(feed[j]);
    r.Parsed? ==>
      var row := RowAt(feed, j, KeyOf(r.event));
      if r.event.change.Created? then row.None? else IsOpen(row)
  }

  lemma OrderlyIsConsistent(feed: seq<ContractEvent>)
    requires Orderly(feed)
    ensures Consistent(feed)
  {
    hide Parse, RowAt, KeyOf;
    forall j | 0 <= j < |feed|
      ensures CreatedBefore(feed, j)
    {
      assert InTurn(feed, j);
    }
  }

  /** A fill of a DCA order: the one update that announces a due date. */
  predicate Rewrites(v: ContractEvent, k: RowKey) {
    var r := Parse(v);
    r.Parsed? && KeyOf(r.event) == k && r.event.change.DcaFilledTo?
  }

  predicate RewrittenIn(feed: seq<ContractEvent>, s: nat, e: nat, k: RowKey)
    requires s <= e <= |feed|
  {
    exists i :: s <= i < e && Rewrites(feed[i], k)
  }

  // ----- One row -----

  /** The row left by reading events s to x on top of the first p, the ones between being skipped. */
  function Ahead(feed: seq<ContractEvent>, p: nat, s: nat, x: nat, k: RowKey): Option<Row>
    requires p <= |feed| && s <= x <= |feed|
  {
    RowFold(RowAt(feed, p, k), feed[s..x], k)
  }

  /** What that row is: as of x if the skipped part left the order as it was; missing if the order was created there; as of p if
      nothing was read for it; and otherwise as of x, with the due date of p until a fill announces a new one. */
  function AheadIs(feed: seq<ContractEvent>, p: nat, s: nat, x: nat, k: RowKey): Option<Row>
    requires p <= s <= x <= |feed|
  {
    var was, now := RowAt(feed, p, k), RowAt(feed, x, k);
    if RowAt(feed, s, k) == was then now
    else if was.None? || now.None? then None
    else if !Regress.UpdatedIn(feed, s, x, k) then was
    else Some(now.value.(next := if RewrittenIn(feed, s, x, k) then now.value.next else was.value.next))
  }

  /** An update on two open rows of one order leaves them alike, but for the due date it does not announce. */
  lemma UpdateOverwrites(a: Row, b: Row, v: ContractEvent, k: RowKey)
    requires SameOrder(Some(a), Some(b)) && IsOpen(Some(a)) && IsOpen(Some(b)) && Regress.IsUpdateOf(v, k)
    requires WellTyped(Some(a), k) && WellTyped(Some(b), k)
    ensures var a', b' := RowWire(Some(a), v, k), RowWire(Some(b), v, k);
            && a'.Some? && b'.Some?
            && a'.value == b'.value.(next := if Rewrites(v, k) then b'.value.next else a.next)
            && (!Rewrites(v, k) ==> b'.value.next == b.next)
  {
    hide Parse, WrapToI64;
  }

  /** Whether the next event is for this order, and what it finds. */
  lemma NextInTurn(feed: seq<ContractEvent>, x: nat, k: RowKey)
    requires Orderly(feed) && x < |feed|
    ensures RowAt(feed, x + 1, k) == RowWire(RowAt(feed, x, k), feed[x], k)
    ensures Regress.IsUpdateOf(feed[x], k) ==> IsOpen(RowAt(feed, x, k))
    ensures Creates(feed[x], k) ==> RowAt(feed, x, k).None? && RowAt(feed, x + 1, k).Some?
    ensures !Regress.IsUpdateOf(feed[x], k) && !Creates(feed[x], k) ==> forall row :: RowWire(row, feed[x], k) == row
    ensures Regress.IsUpdateOf(feed[x], k) ==> RowWire(None, feed[x], k) == None && !Creates(feed[x], k)
    ensures Rewrites(feed[x], k) ==> Regress.IsUpdateOf(feed[x], k)
  {
    hide Parse, RowFold, RowAt, WrapToI64, KeyOf;
    RowAtNext(feed, x, k);
    assert InTurn(feed, x);
  }

  lemma RowsInTurn(feed: seq<ContractEvent>, p: nat, x: nat, k: RowKey)
    requires p <= x <= |feed|
    ensures WellTyped(RowAt(feed, p, k), k) && WellTyped(RowAt(feed, x, k), k)
    ensures RowAt(feed, p, k).Some? ==> SameOrder(RowAt(feed, p, k), RowAt(feed, x, k))
    ensures RowAt(feed, p, k).Some? && !IsOpen(RowAt(feed, p, k)) ==> RowAt(feed, x, k) == RowAt(feed, p, k)
  {
    LaterRow(feed, p, x, k);
    LaterRow(feed, p, p, k);
  }

  lemma RewritesAreUpdates(feed: seq<ContractEvent>, s: nat, x: nat, k: RowKey)
    requires s <= x <= |feed|
    ensures RewrittenIn(feed, s, x, k) ==> Regress.UpdatedIn(feed, s, x, k)
  {
    hide Parse, KeyOf;
    if RewrittenIn(feed, s, x, k) {
      var i :| s <= i < x && Rewrites(feed[i], k);
      assert Regress.IsUpdateOf(feed[i], k);
    }
  }

  lemma NextAhead(feed: seq<ContractEvent>, p: nat, s: nat, x: nat, k: RowKey)
    requires Orderly(feed) && p <= s <= x < |feed|
    ensures RowWire(AheadIs(feed, p, s, x, k), feed[x], k) == AheadIs(feed, p, s, x + 1, k)
  {
    hide RowWire, RowAt, Regress.IsUpdateOf, Rewrites, Orderly, Creates;
    NextInTurn(feed, x, k);
    RowsInTurn(feed, p, s, k);
    RowsInTurn(feed, s, x, k);
    RowsInTurn(feed, p, x, k);
    RowsInTurn(feed, x, x + 1, k);
    RewritesAreUpdates(feed, s, x, k);
    var was, now := RowAt(feed, p, k), RowAt(feed, x, k);
    if RowAt(feed, s, k) != was && was.Some? && now.Some? && Regress.IsUpdateOf(feed[x], k) {
      var g := AheadIs(feed, p, s, x, k);
      UpdateOverwrites(g.value, now.value, feed[x], k);
    }
  }

  lemma AheadNext(feed: seq<ContractEvent>, p: nat, s: nat, x: nat, k: RowKey)
    requires p <= |feed| && s < x <= |feed|
    ensures Ahead(feed, p, s, x, k) == RowWire(Ahead(feed, p, s, x - 1, k), feed[x - 1], k)
  {
    hide RowAt, RowWire;
    assert feed[s..x][..x - 1 - s] == feed[s..x - 1] && feed[s..x][x - 1 - s] == feed[x - 1];
  }

  /** Reading ahead of a gap, exactly. */
  lemma {:induction false} SkippedRow(feed: seq<ContractEvent>, p: nat, s: nat, x: nat, k: RowKey)
    requires Orderly(feed) && p <= s <= x <= |feed|
    ensures Ahead(feed, p, s, x, k) == AheadIs(feed, p, s, x, k)
    decreases x
  {
    hide RowAt, RowWire, Orderly, Regress.IsUpdateOf;
    if x == s {
      assert feed[s..x] == [];
      LaterRow(feed, p, s, k);
    } else {
      SkippedRow(feed, p, s, x - 1, k);
      NextAhead(feed, p, s, x - 1, k);
      AheadNext(feed, p, s, x, k);
      hide Ahead, AheadIs;
    }
  }

  /** What was read since makes up for the gap: it left the order as it was, or the order is older than the gap, was updated
      again, and its due date was announced again or is still the same. */
  predicate CaughtUp(feed: seq<ContractEvent>, p: nat, s: nat, x: nat, k: RowKey)
    requires p <= s <= x <= |feed|
  {
    var was, gone := RowAt(feed, p, k), RowAt(feed, s, k);
    || gone == was
    || (was.Some? && gone.Some? && Regress.UpdatedIn(feed, s, x, k)
        && (RewrittenIn(feed, s, x, k) || gone.value.next == was.value.next))
  }

  /** Between events for an order its row stands still; and without a fill, its due date does. */
  lemma {:induction false} StandsStill(feed: seq<ContractEvent>, s: nat, x: nat, k: RowKey)
    requires Orderly(feed) && s <= x <= |feed| && RowAt(feed, s, k).Some?
    ensures RowAt(feed, x, k).Some?
    ensures !Regress.UpdatedIn(feed, s, x, k) ==> RowAt(feed, x, k) == RowAt(feed, s, k)
    ensures !RewrittenIn(feed, s, x, k) ==> RowAt(feed, x, k).value.next == RowAt(feed, s, k).value.next
    decreases x
  {
    hide RowAt, RowWire, Orderly, Regress.IsUpdateOf, Rewrites, Creates;
    if s == x {
    } else {
      StandsStill(feed, s, x - 1, k);
      NextInTurn(feed, x - 1, k);
      if Regress.IsUpdateOf(feed[x - 1], k) {
        RowsInTurn(feed, s, x - 1, k);
        UpdateOverwrites(RowAt(feed, x - 1, k).value, RowAt(feed, x - 1, k).value, feed[x - 1], k);
      }
    }
  }

  lemma AheadIsClean(feed: seq<ContractEvent>, p: nat, s: nat, x: nat, k: RowKey)
    requires Orderly(feed) && p <= s <= x <= |feed|
    ensures Ahead(feed, p, s, x, k) == RowAt(feed, x, k) <==> CaughtUp(feed, p, s, x, k)
  {
    hide RowAt, Ahead, Orderly, Regress.UpdatedIn, RewrittenIn;
    SkippedRow(feed, p, s, x, k);
    RowsInTurn(feed, p, s, k);
    if RowAt(feed, s, k).Some? {
      StandsStill(feed, s, x, k);
    }
  }

  // ----- The feed without the gap -----

  function Without(feed: seq<ContractEvent>, p: nat, s: nat): seq<ContractEvent>
    requires p <= s <= |feed|
  {
    feed[..p] + feed[s..]
  }

  /** Reading ahead of the gap is one clean pass over the feed without it. */
  lemma RowWithout(feed: seq<ContractEvent>, p: nat, s: nat, x: nat, k: RowKey)
    requires p <= s <= x <= |feed|
    ensures RowAt(Without(feed, p, s), p + (x - s), k) == Ahead(feed, p, s, x, k)
  {
    assert Without(feed, p, s)[..p + (x - s)] == feed[..p] + feed[s..x];
    RowFoldAppend(None, feed[..p], feed[s..x], k);
  }

  lemma {:induction false} RowBeforeGap(feed: seq<ContractEvent>, p: nat, s: nat, j: nat, k: RowKey)
    requires j <= p <= s <= |feed|
    ensures RowAt(Without(feed, p, s), j, k) == RowAt(feed, j, k)
  {
    assert Without(feed, p, s)[..j] == feed[..j];
  }

  /** The feed without the gap is still consistent: an order the gap created is never there. */
  lemma WithoutIsConsistent(feed: seq<ContractEvent>, p: nat, s: nat)
    requires Orderly(feed) && p <= s <= |feed|
    ensures Consistent(Without(feed, p, s))
  {
    hide Parse, RowAt, KeyOf, Orderly;
    var shorter := Without(feed, p, s);
    forall j | 0 <= j < |shorter|
      ensures CreatedBefore(shorter, j)
    {
      var r := Parse(shorter[j]);
      if r.Parsed? && !r.event.change.Created? {
        var k := KeyOf(r.event);
        if j < p {
          UpdateFindsRow(feed, j);
          RowBeforeGap(feed, p, s, j, k);
        } else {
          var x := s + (j - p);
          UpdateFindsRow(feed, x);
          RowWithout(feed, p, s, x, k);
          SkippedRow(feed, p, s, x, k);
          RowsInTurn(feed, p, s, k);
          if Ahead(feed, p, s, x, k).None? {
            GapRowExists(feed, p, s, x, k);
            NeverAgain(feed, p, s, x, k);
          }
        }
      }
    }
  }

  lemma UpdateFindsRow(feed: seq<ContractEvent>, j: nat)
    requires Orderly(feed) && j < |feed|
    ensures var r := Parse(feed[j]);
            r.Parsed? && !r.event.change.Created? ==> RowAt(feed, j, KeyOf(r.event)).Some?
  {
    hide Parse, KeyOf, RowAt;
    assert InTurn(feed, j);
  }

  /** A row missing past a gap, though the feed has it, was there at the end of the gap. */
  lemma GapRowExists(feed: seq<ContractEvent>, p: nat, s: nat, x: nat, k: RowKey)
    requires p <= s <= x <= |feed| && RowAt(feed, x, k).Some? && AheadIs(feed, p, s, x, k).None?
    ensures RowAt(feed, s, k).Some?
  {
    hide RowAt, Regress.UpdatedIn, RewrittenIn;
  }

  lemma NeverAgain(feed: seq<ContractEvent>, p: nat, s: nat, x: nat, k: RowKey)
    requires Orderly(feed) && p <= s <= x <= |feed| && RowAt(feed, s, k).Some?
    ensures NeverCreated(Without(feed, p, s), p + (x - s), k)
  {
    hide Parse, RowAt, KeyOf, Orderly, Creates;
    var shorter := Without(feed, p, s);
    forall i | p + (x - s) <= i < |shorter|
      ensures !Creates(shorter[i], k)
    {
      var y := s + (i - p);
      assert shorter[i] == feed[y];
      RowsInTurn(feed, s, y, k);
      NextInTurn(feed, y, k);
    }
  }

  // ----- The condition on events alone -----

  predicate CreatedIn(feed: seq<ContractEvent>, s: nat, e: nat, k: RowKey)
    requires s <= e <= |feed|
  {
    exists i :: s <= i < e && Creates(feed[i], k)
  }

  /** The gap has nothing for the order; or it did not create it, the order was updated again in what was read, and a due date
      announced in the gap was announced again. */
  predicate MadeUp(feed: seq<ContractEvent>, p: nat, s: nat, x: nat, k: RowKey)
    requires p <= s <= x <= |feed|
  {
    && !CreatedIn(feed, p, s, k)
    && (Regress.UpdatedIn(feed, p, s, k) ==> Regress.UpdatedIn(feed, s, x, k))
    && (RewrittenIn(feed, p, s, k) ==> RewrittenIn(feed, s, x, k))
  }

  /** No event repeats what an earlier one said: an update leaves another remainder than any before it, and a fill of a DCA order
      that stays open another due date. */
  ghost predicate Telling(feed: seq<ContractEvent>) {
    forall p: nat, s: nat, k :: p <= s <= |feed| ==> Tells(feed, p, s, k)
  }

  ghost predicate Tells(feed: seq<ContractEvent>, p: nat, s: nat, k: RowKey)
    requires p <= s <= |feed|
  {
    var was, gone := RowAt(feed, p, k), RowAt(feed, s, k);
    was.Some? && gone.Some? ==>
      && (Regress.UpdatedIn(feed, p, s, k) ==> gone.value.remaining != was.value.remaining)
      && (RewrittenIn(feed, p, s, k) && IsOpen(gone) ==> gone.value.next != was.value.next)
  }

  /** A row appears by creation only, and only once. */
  lemma {:induction false} CreatedMeans(feed: seq<ContractEvent>, s: nat, e: nat, k: RowKey)
    requires Orderly(feed) && s <= e <= |feed|
    ensures CreatedIn(feed, s, e, k) <==> RowAt(feed, s, k).None? && RowAt(feed, e, k).Some?
    decreases e
  {
    hide RowAt, RowWire, Orderly, Regress.IsUpdateOf, Rewrites, Creates;
    if s == e {
    } else {
      CreatedMeans(feed, s, e - 1, k);
      NextInTurn(feed, e - 1, k);
      RowsInTurn(feed, s, e - 1, k);
      RowsInTurn(feed, e - 1, e, k);
    }
  }

  lemma UpdatedWasOpen(feed: seq<ContractEvent>, s: nat, x: nat, k: RowKey)
    requires Orderly(feed) && s <= x <= |feed| && Regress.UpdatedIn(feed, s, x, k) && RowAt(feed, s, k).Some?
    ensures IsOpen(RowAt(feed, s, k))
  {
    hide RowAt, RowWire, Orderly, Regress.IsUpdateOf;
    var i :| s <= i < x && Regress.IsUpdateOf(feed[i], k);
    NextInTurn(feed, i, k);
    RowsInTurn(feed, s, i, k);
  }

  /** An order without a row is not updated. */
  lemma MissingIsNotUpdated(feed: seq<ContractEvent>, s: nat, x: nat, k: RowKey)
    requires Orderly(feed) && s <= x <= |feed| && RowAt(feed, x, k).None?
    ensures RowAt(feed, s, k).None? && !Regress.UpdatedIn(feed, s, x, k) && !RewrittenIn(feed, s, x, k)
  {
    hide RowAt, RowWire, Orderly, Regress.IsUpdateOf, Rewrites;
    RowsInTurn(feed, s, x, k);
    RewritesAreUpdates(feed, s, x, k);
    if Regress.UpdatedIn(feed, s, x, k) {
      var i :| s <= i < x && Regress.IsUpdateOf(feed[i], k);
      NextInTurn(feed, i, k);
      RowsInTurn(feed, i, x, k);
      assert false;
    }
  }

  lemma CaughtUpMeans(feed: seq<ContractEvent>, p: nat, s: nat, x: nat, k: RowKey)
    requires Orderly(feed) && Telling(feed) && p <= s <= x <= |feed|
    ensures CaughtUp(feed, p, s, x, k) <==> MadeUp(feed, p, s, x, k)
  {
    hide RowAt, Orderly, Telling, Regress.UpdatedIn, RewrittenIn, CreatedIn;
    assert Tells(feed, p, s, k) by {
      TellsHere(feed, p, s, k);
    }
    CreatedMeans(feed, p, s, k);
    RewritesAreUpdates(feed, p, s, k);
    RewritesAreUpdates(feed, s, x, k);
    if RowAt(feed, s, k).None? {
      MissingIsNotUpdated(feed, p, s, k);
    } else if RowAt(feed, p, k).Some? {
      StandsStill(feed, p, s, k);
      if Regress.UpdatedIn(feed, s, x, k) {
        UpdatedWasOpen(feed, s, x, k);
      }
    }
  }

  lemma TellsHere(feed: seq<ContractEvent>, p: nat, s: nat, k: RowKey)
    requires Telling(feed) && p <= s <= |feed|
    ensures Tells(feed, p, s, k)
  {
  }

  // ----- Closed with an old due date -----

  /** A DCA order whose due date moved in the gap, and of which so far only a cancellation or expiry was read: its row is closed
      with the old date. */
  predicate Frozen(feed: seq<ContractEvent>, p: nat, s: nat, x: nat, k: RowKey)
    requires p <= s <= x <= |feed|
  {
    var was, gone := RowAt(feed, p, k), RowAt(feed, s, k);
    && was.Some? && gone.Some? && gone.value.next != was.value.next
    && Regress.UpdatedIn(feed, s, x, k) && !RewrittenIn(feed, s, x, k)
  }

  /** An update of a DCA order that announces no due date closes it. */
  lemma {:induction false} ClosedWithoutFill(feed: seq<ContractEvent>, s: nat, x: nat, k: RowKey)
    requires Orderly(feed) && s <= x <= |feed| && k.dca && RowAt(feed, s, k).Some?
    requires Regress.UpdatedIn(feed, s, x, k) && !RewrittenIn(feed, s, x, k)
    ensures RowAt(feed, x, k).Some? && !IsOpen(RowAt(feed, x, k))
    decreases x
  {
    hide RowAt, RowWire, Orderly, Regress.IsUpdateOf, Rewrites, Creates;
    NextInTurn(feed, x - 1, k);
    RowsInTurn(feed, s, x - 1, k);
    RowsInTurn(feed, x - 1, x, k);
    if Regress.IsUpdateOf(feed[x - 1], k) {
      DcaUpdateCloses(RowAt(feed, x - 1, k), feed[x - 1], k);
    } else {
      ClosedWithoutFill(feed, s, x - 1, k);
    }
  }

  lemma DcaUpdateCloses(row: Option<Row>, v: ContractEvent, k: RowKey)
    requires k.dca && IsOpen(row) && Regress.IsUpdateOf(v, k) && !Rewrites(v, k)
    ensures RowWire(row, v, k).Some? && !IsOpen(RowWire(row, v, k))
  {
    hide Parse, WrapToI64;
  }

  /** Reading ahead of a gap leaves a row that a clean pass has too, as of before the gap or as of what was read; or one that is
      closed, with an old due date, for good. */
  lemma AheadKnown(feed: seq<ContractEvent>, p: nat, s: nat, x: nat, k: RowKey)
    requires Orderly(feed) && p <= s <= x <= |feed|
    ensures !Frozen(feed, p, s, x, k) ==>
              Ahead(feed, p, s, x, k) == RowAt(feed, p, k) || Ahead(feed, p, s, x, k) == RowAt(feed, x, k)
    ensures Frozen(feed, p, s, x, k) ==>
              var row := Ahead(feed, p, s, x, k);
              && row.Some? && !IsOpen(row) && WellTyped(row, k)
              && forall e :: x <= e <= |feed| ==> row != RowAt(feed, e, k)
  {
    hide RowAt, Orderly, Regress.UpdatedIn, RewrittenIn, Ahead;
    SkippedRow(feed, p, s, x, k);
    RowsInTurn(feed, p, s, k);
    if RowAt(feed, s, k).Some? {
      StandsStill(feed, s, x, k);
    }
    if Frozen(feed, p, s, x, k) {
      ClosedWithoutFill(feed, s, x, k);
      forall e | x <= e <= |feed|
        ensures RowAt(feed, e, k) == RowAt(feed, x, k)
      {
        RowsInTurn(feed, x, e, k);
      }
    }
  }
}
