// Any run of the indexer at all: an order's row is right exactly when its events were read in a certain order.

module ReadOrder {
  import opened Base
  import opened Index
  import opened Ingest
  import opened OrderEvents
  import opened ScVal
  import opened Skip
  import Regress

  // ----- What a run reads -----

  function Span(a: nat, b: nat): (q: seq<nat>)
    requires a <= b
    ensures |q| == b - a && forall i :: 0 <= i < |q| ==> q[i] == a + i
  {
    seq(b - a, i requires 0 <= i < b - a => a + i)
  }

  /** The positions in the feed of the events a batch applies. */
  function BatchReads(feed: seq<ContractEvent>, start: uint32, end: uint32, budget: Option<nat>): (q: seq<nat>)
    requires start <= end
    ensures forall i :: 0 <= i < |q| ==> q[i] < |feed|
  {
    BeforeMonotone(feed, start, end);
    var from := Before(feed, start);
    if Survives(Fetch(feed, start, end), budget) then Span(from, Before(feed, end)) else Span(from, from + budget.value)
  }

  function BackfillReads(feed: seq<ContractEvent>, from: uint32, latest: uint32, budget: Option<nat>): (q: seq<nat>)
    ensures forall i :: 0 <= i < |q| ==> q[i] < |feed|
    decreases latest - from
  {
    if from >= latest || from == 0 then []
    else
      var end := BatchEnd(from, latest);
      var events := Fetch(feed, from, end);
      BatchReads(feed, from, end, budget)
      + if Survives(events, budget) then BackfillReads(feed, end, latest, Left(events, budget)) else []
  }

  function ActReads(feed: seq<ContractEvent>, s: State, a: Action): (q: seq<nat>)
    ensures forall i :: 0 <= i < |q| ==> q[i] < |feed|
  {
    match a
    case Polled(latest, budget) =>
      if s.cursor >= latest || s.cursor == 0 then [] else BatchReads(feed, s.cursor, BatchEnd(s.cursor, latest), budget)
    case Backfilled(from, latest, budget) => BackfillReads(feed, from, latest, budget)
  }

  /** The positions of the events a run applies, in the order in which it does, as often as it does. */
  function Reads(feed: seq<ContractEvent>, s: State, actions: seq<Action>): (q: seq<nat>)
    ensures forall i :: 0 <= i < |q| ==> q[i] < |feed|
  {
    if actions == [] then []
    else
      var front := actions[..|actions| - 1];
      Reads(feed, s, front) + ActReads(feed, Acts(feed, s, front), actions[|actions| - 1])
  }

  function At(feed: seq<ContractEvent>, q: seq<nat>): (events: seq<ContractEvent>)
    requires forall i :: 0 <= i < |q| ==> q[i] < |feed|
    ensures |events| == |q| && forall i :: 0 <= i < |q| ==> events[i] == feed[q[i]]
  {
    seq(|q|, i requires 0 <= i < |q| => feed[q[i]])
  }

  lemma {:induction false} FoldAppend(t: Tables, a: seq<ContractEvent>, b: seq<ContractEvent>)
    ensures Fold(t, a + b) == Fold(Fold(t, a), b)
    decreases |b|
  {
    hide ApplyWire;
    if b == [] {
      assert a + b == a;
    } else {
      FoldAppend(t, a, b[..|b| - 1]);
      assert (a + b)[..|a + b| - 1] == a + b[..|b| - 1];
    }
  }

  lemma FoldReads(feed: seq<ContractEvent>, t: Tables, a: seq<nat>, b: seq<nat>)
    requires forall i :: 0 <= i < |a| ==> a[i] < |feed|
    requires forall i :: 0 <= i < |b| ==> b[i] < |feed|
    ensures Fold(t, At(feed, a + b)) == Fold(Fold(t, At(feed, a)), At(feed, b))
  {
    hide Fold;
    assert At(feed, a + b) == At(feed, a) + At(feed, b);
    FoldAppend(t, At(feed, a), At(feed, b));
  }

  lemma NothingRead(feed: seq<ContractEvent>, t: Tables)
    ensures Fold(t, At(feed, [])) == t
  {
  }

  lemma BatchAppliesReads(feed: seq<ContractEvent>, s: State, start: uint32, end: uint32, budget: Option<nat>)
    requires start <= end
    ensures Batch(feed, s, start, end, budget).tables == Fold(s.tables, At(feed, BatchReads(feed, start, end, budget)))
  {
    hide Fold, Before;
    BeforeMonotone(feed, start, end);
    var from, events := Before(feed, start), Fetch(feed, start, end);
    var q := BatchReads(feed, start, end, budget);
    if Survives(events, budget) {
      assert At(feed, q) == events;
    } else {
      assert At(feed, q) == events[..budget.value];
    }
  }

  lemma {:induction false} BackfillAppliesReads(feed: seq<ContractEvent>, s: State, from: uint32, latest: uint32, budget: Option<nat>)
    ensures Backfill(feed, s, from, latest, budget).tables == Fold(s.tables, At(feed, BackfillReads(feed, from, latest, budget)))
    decreases latest - from
  {
    hide Fold, Fetch, Batch, BatchReads, At;
    if from >= latest || from == 0 {
      NothingRead(feed, s.tables);
    } else {
      var end := BatchEnd(from, latest);
      var events := Fetch(feed, from, end);
      BatchAppliesReads(feed, s, from, end, budget);
      var read := BatchReads(feed, from, end, budget);
      if Survives(events, budget) {
        BackfillAppliesReads(feed, Batch(feed, s, from, end, budget), end, latest, Left(events, budget));
        FoldReads(feed, s.tables, read, BackfillReads(feed, end, latest, Left(events, budget)));
      } else {
        assert read + [] == read;
      }
    }
  }

  lemma ActAppliesReads(feed: seq<ContractEvent>, s: State, a: Action)
    ensures Act(feed, s, a).tables == Fold(s.tables, At(feed, ActReads(feed, s, a)))
  {
    hide Fold, Fetch, Batch, Backfill, BatchReads, BackfillReads, At;
    match a {
      case Polled(latest, budget) =>
        if 0 < s.cursor < latest {
          BatchAppliesReads(feed, s, s.cursor, BatchEnd(s.cursor, latest), budget);
        } else {
          NothingRead(feed, s.tables);
        }
      case Backfilled(from, latest, budget) => BackfillAppliesReads(feed, s, from, latest, budget);
    }
  }

  /** A run applies what it reads, in that order, and nothing else. */
  lemma {:induction false} RunAppliesReads(feed: seq<ContractEvent>, s: State, actions: seq<Action>)
    ensures Acts(feed, s, actions).tables == Fold(s.tables, At(feed, Reads(feed, s, actions)))
  {
    hide Fold, Act, ActReads, At;
    if actions == [] {
      NothingRead(feed, s.tables);
    } else {
      var front, last := actions[..|actions| - 1], actions[|actions| - 1];
      RunAppliesReads(feed, s, front);
      ActAppliesReads(feed, Acts(feed, s, front), last);
      FoldReads(feed, s.tables, Reads(feed, s, front), ActReads(feed, Acts(feed, s, front), last));
    }
  }

  // ----- The row of one order -----

  /** The row after reading these positions, from empty tables. */
  function ReadRow(feed: seq<ContractEvent>, q: seq<nat>, k: RowKey): Option<Row>
    requires forall i :: 0 <= i < |q| ==> q[i] < |feed|
  {
    RowFold(None, At(feed, q), k)
  }

  lemma ReadNext(feed: seq<ContractEvent>, q: seq<nat>, k: RowKey)
    requires q != [] && forall i :: 0 <= i < |q| ==> q[i] < |feed|
    ensures ReadRow(feed, q, k) == RowWire(ReadRow(feed, q[..|q| - 1], k), feed[q[|q| - 1]], k)
  {
    hide RowWire;
    assert At(feed, q)[..|q| - 1] == At(feed, q[..|q| - 1]);
  }

  /** The creation of the order is read for the first time at place c. */
  ghost predicate FirstCreation(feed: seq<ContractEvent>, q: seq<nat>, c: nat, k: RowKey)
    requires forall i :: 0 <= i < |q| ==> q[i] < |feed|
  {
    c < |q| && Creates(feed[q[c]], k) && forall i :: 0 <= i < c ==> !Creates(feed[q[i]], k)
  }

  /** Where the row comes from: created at place c, its due date announced at place f, last changed at place l. Until then no
      update that was read closes the order, and if none has, none was read after l. */
  ghost predicate Stems(feed: seq<ContractEvent>, q: seq<nat>, c: nat, f: nat, l: nat, row: Row, k: RowKey)
    requires forall i :: 0 <= i < |q| ==> q[i] < |feed|
  {
    && FirstCreation(feed, q, c, k) && c <= f <= l < |q|
    && (f == c || Rewrites(feed[q[f]], k)) && (l == c || Regress.IsUpdateOf(feed[q[l]], k))
    && (forall i :: f < i <= l ==> !Rewrites(feed[q[i]], k))
    && (forall i :: c <= i < (if IsOpen(Some(row)) then |q| else l) && Regress.IsUpdateOf(feed[q[i]], k) ==>
          IsOpen(RowAt(feed, q[i] + 1, k)))
    && (IsOpen(Some(row)) ==> forall i :: l < i < |q| ==> !Regress.IsUpdateOf(feed[q[i]], k))
    && StemRow(feed, q[f], q[l], row, k)
  }

  ghost predicate StemRow(feed: seq<ContractEvent>, n: nat, m: nat, row: Row, k: RowKey)
    requires n < |feed| && m < |feed|
  {
    var due, now := RowAt(feed, n + 1, k), RowAt(feed, m + 1, k);
    && due.Some? && now.Some? && row == now.value.(next := due.value.next)
    && (IsOpen(Some(row)) ==> row == now.value)
  }

  /** A creation leaves an open row, whatever was read before it. */
  lemma CreationIsOpen(feed: seq<ContractEvent>, j: nat, k: RowKey)
    requires Orderly(feed) && j < |feed| && Creates(feed[j], k)
    ensures RowAt(feed, j, k).None? && IsOpen(RowAt(feed, j + 1, k))
    ensures RowWire(None, feed[j], k) == RowAt(feed, j + 1, k)
    ensures forall row: Row :: RowWire(Some(row), feed[j], k) == Some(row)
    ensures !Regress.IsUpdateOf(feed[j], k) && !Rewrites(feed[j], k)
  {
    hide RowAt, Orderly, Parse;
    NextInTurn(feed, j, k);
  }

  lemma SameFront(feed: seq<ContractEvent>, q: seq<nat>, j: nat)
    requires (forall i :: 0 <= i < |q| ==> q[i] < |feed|) && j < |feed|
    ensures var r := q + [j]; |r| == |q| + 1 && r[|q|] == j && (forall i :: 0 <= i < |q| ==> r[i] == q[i])
    ensures forall i :: 0 <= i < |q| + 1 ==> (q + [j])[i] < |feed|
  {
  }

  /** An event that is not an update of an open row changes nothing. */
  lemma StemsStay(feed: seq<ContractEvent>, q: seq<nat>, j: nat, c: nat, f: nat, l: nat, row: Row, k: RowKey)
    requires Orderly(feed) && (forall i :: 0 <= i < |q| ==> q[i] < |feed|) && j < |feed|
    requires Stems(feed, q, c, f, l, row, k) && !(IsOpen(Some(row)) && Regress.IsUpdateOf(feed[j], k))
    ensures forall i :: 0 <= i < |q| + 1 ==> (q + [j])[i] < |feed|
    ensures RowWire(Some(row), feed[j], k) == Some(row) && Stems(feed, q + [j], c, f, l, row, k)
  {
    hide RowAt, Orderly, RowWire, Creates, Rewrites, Regress.IsUpdateOf;
    SameFront(feed, q, j);
    NextInTurn(feed, j, k);
    if Creates(feed[j], k) {
      CreationIsOpen(feed, j, k);
    } else if Regress.IsUpdateOf(feed[j], k) {
      ClosedRowStays(row, feed[j], k);
    }
    assert FirstCreation(feed, q + [j], c, k);
  }

  lemma ClosedRowStays(row: Row, v: ContractEvent, k: RowKey)
    requires !IsOpen(Some(row))
    ensures RowWire(Some(row), v, k) == Some(row)
  {
    hide Parse, WrapToI64;
  }

  /** What an update makes of an open row: the row as of the update, but for a due date it does not announce. */
  lemma UpdateReads(feed: seq<ContractEvent>, n: nat, m: nat, j: nat, row: Row, k: RowKey)
    requires Orderly(feed) && n < |feed| && m < |feed| && j < |feed|
    requires StemRow(feed, n, m, row, k) && IsOpen(Some(row)) && Regress.IsUpdateOf(feed[j], k)
    ensures var row' := RowWire(Some(row), feed[j], k);
            && row'.Some? && (IsOpen(row') <==> IsOpen(RowAt(feed, j + 1, k)))
            && StemRow(feed, if Rewrites(feed[j], k) then j else n, j, row'.value, k)
  {
    hide RowAt, Orderly, RowWire, Creates, Rewrites, Regress.IsUpdateOf;
    NextInTurn(feed, j, k);
    SameOrderOf(feed, m + 1, j, k);
    UpdateOverwrites(row, RowAt(feed, j, k).value, feed[j], k);
    RowsInTurn(feed, j, j + 1, k);
    if !Rewrites(feed[j], k) && k.dca {
      DcaUpdateCloses(RowAt(feed, j, k), feed[j], k);
    }
  }

  lemma SameOrderOf(feed: seq<ContractEvent>, a: nat, b: nat, k: RowKey)
    requires a <= |feed| && b <= |feed| && RowAt(feed, a, k).Some? && RowAt(feed, b, k).Some?
    ensures SameOrder(RowAt(feed, a, k), RowAt(feed, b, k))
    ensures WellTyped(RowAt(feed, a, k), k) && WellTyped(RowAt(feed, b, k), k)
  {
    hide RowAt;
    if a <= b {
      RowsInTurn(feed, a, b, k);
    } else {
      RowsInTurn(feed, b, a, k);
    }
  }

  lemma StemsMove(feed: seq<ContractEvent>, q: seq<nat>, j: nat, c: nat, f: nat, l: nat, row: Row, k: RowKey)
    requires Orderly(feed) && (forall i :: 0 <= i < |q| ==> q[i] < |feed|) && j < |feed|
    requires Stems(feed, q, c, f, l, row, k) && IsOpen(Some(row)) && Regress.IsUpdateOf(feed[j], k)
    ensures forall i :: 0 <= i < |q| + 1 ==> (q + [j])[i] < |feed|
    ensures var row' := RowWire(Some(row), feed[j], k);
            row'.Some? && Stems(feed, q + [j], c, if Rewrites(feed[j], k) then |q| else f, |q|, row'.value, k)
  {
    hide RowAt, Orderly, RowWire, Creates, Rewrites, Regress.IsUpdateOf, StemRow;
    SameFront(feed, q, j);
    UpdateReads(feed, q[f], q[l], j, row, k);
    assert FirstCreation(feed, q + [j], c, k);
    forall i | f < i <= |q| && i < |q|
      ensures !Rewrites(feed[q[i]], k)
    {
      RewriteIsUpdate(feed[q[i]], k);
    }
  }

  lemma RewriteIsUpdate(v: ContractEvent, k: RowKey)
    ensures Rewrites(v, k) ==> Regress.IsUpdateOf(v, k)
  {
    hide Parse, WrapToI64;
  }

  lemma StemsStart(feed: seq<ContractEvent>, q: seq<nat>, j: nat, k: RowKey)
    requires Orderly(feed) && (forall i :: 0 <= i < |q| ==> q[i] < |feed| && !Creates(feed[q[i]], k))
    requires j < |feed| && Creates(feed[j], k)
    ensures forall i :: 0 <= i < |q| + 1 ==> (q + [j])[i] < |feed|
    ensures var row := RowWire(None, feed[j], k);
            row.Some? && Stems(feed, q + [j], |q|, |q|, |q|, row.value, k)
  {
    hide RowAt, Orderly, RowWire, Creates, Rewrites, Regress.IsUpdateOf;
    SameFront(feed, q, j);
    CreationIsOpen(feed, j, k);
  }

  /** Every row that a run leaves stems from its readings, and one it does not leave was never read to be created. */
  lemma {:induction false} RowStems(feed: seq<ContractEvent>, q: seq<nat>, k: RowKey) returns (c: nat, f: nat, l: nat)
    requires Orderly(feed) && forall i :: 0 <= i < |q| ==> q[i] < |feed|
    ensures var row := ReadRow(feed, q, k);
            if row.None? then forall i :: 0 <= i < |q| ==> !Creates(feed[q[i]], k) else Stems(feed, q, c, f, l, row.value, k)
    decreases |q|
  {
    hide RowAt, Orderly, RowWire, Creates, Rewrites, Regress.IsUpdateOf, Stems;
    if q == [] {
      c, f, l := 0, 0, 0;
    } else {
      var front, j := q[..|q| - 1], q[|q| - 1];
      assert q == front + [j];
      c, f, l := RowStems(feed, front, k);
      ReadNext(feed, q, k);
      hide ReadRow;
      var row := ReadRow(feed, front, k);
      if row.None? {
        if Creates(feed[j], k) {
          StemsStart(feed, front, j, k);
          c, f, l := |front|, |front|, |front|;
        } else {
          NextInTurn(feed, j, k);
        }
      } else if IsOpen(row) && Regress.IsUpdateOf(feed[j], k) {
        StemsMove(feed, front, j, c, f, l, row.value, k);
        f, l := if Rewrites(feed[j], k) then |front| else f, |front|;
      } else {
        StemsStay(feed, front, j, c, f, l, row.value, k);
      }
    }
  }

  // ----- The order of reading -----

  /** Position j holds the order's last event before e. */
  ghost predicate IsLatest(feed: seq<ContractEvent>, j: nat, e: nat, k: RowKey)
    requires e <= |feed|
  {
    j < e && (Creates(feed[j], k) || Regress.IsUpdateOf(feed[j], k)) && !Regress.UpdatedIn(feed, j + 1, e, k)
  }

  /** Position j holds the last event before e that says when the order is due. */
  ghost predicate IsLatestDue(feed: seq<ContractEvent>, j: nat, e: nat, k: RowKey)
    requires e <= |feed|
  {
    j < e && (Creates(feed[j], k) || Rewrites(feed[j], k)) && !RewrittenIn(feed, j + 1, e, k)
  }

  /** The order was read right, at places c, f and l: its creation is first read at c, the event with its last due date at f,
      and its last event at l, with no other due date between these two. While the order is open, no update of it was read
      after l; once it is closed, its closing event was not read between c and l already. */
  ghost predicate InOrder(feed: seq<ContractEvent>, q: seq<nat>, e: nat, c: nat, f: nat, l: nat, k: RowKey)
    requires e <= |feed| && forall i :: 0 <= i < |q| ==> q[i] < e
  {
    && FirstCreation(feed, q, c, k) && c <= f <= l < |q|
    && IsLatestDue(feed, q[f], e, k) && IsLatest(feed, q[l], e, k)
    && (forall i :: f < i < l ==> !Rewrites(feed[q[i]], k))
    && (if IsOpen(RowAt(feed, e, k)) then forall i :: l < i < |q| ==> !Regress.IsUpdateOf(feed[q[i]], k)
        else forall i :: c <= i < l ==> q[i] != q[l])
  }

  ghost predicate ReadRight(feed: seq<ContractEvent>, q: seq<nat>, e: nat, k: RowKey)
    requires e <= |feed| && forall i :: 0 <= i < |q| ==> q[i] < e
  {
    exists c, f, l :: InOrder(feed, q, e, c, f, l, k)
  }

  lemma LatestRow(feed: seq<ContractEvent>, j: nat, e: nat, k: RowKey)
    requires Orderly(feed) && e <= |feed| && IsLatest(feed, j, e, k)
    ensures RowAt(feed, e, k).Some? && RowAt(feed, j + 1, k) == RowAt(feed, e, k)
  {
    hide RowAt, Orderly, RowWire, Creates, Regress.IsUpdateOf, Regress.UpdatedIn;
    NextInTurn(feed, j, k);
    RowsInTurn(feed, j, j + 1, k);
    StandsStill(feed, j + 1, e, k);
  }

  /** A row carries the ledger and time of its order's last event, and the row of a limit order those of its creation. */
  lemma RowStamps(feed: seq<ContractEvent>, j: nat, c: nat, e: nat, k: RowKey)
    requires Orderly(feed) && c < e <= |feed| && IsLatest(feed, j, e, k) && Creates(feed[c], k)
    ensures RowAt(feed, e, k).Some? && Parse(feed[j]).Parsed? && Parse(feed[c]).Parsed?
    ensures var row, last, first := RowAt(feed, e, k).value, Parse(feed[j]).event, Parse(feed[c]).event;
            && row.ledger == last.ledger && row.at == last.at
            && row.created == if k.dca then None else Some((first.ledger, first.at))
  {
    hide RowAt, Orderly, RowWire, Creates, Regress.IsUpdateOf, Regress.UpdatedIn;
    LatestRow(feed, j, e, k);
    NextInTurn(feed, j, k);
    NextInTurn(feed, c, k);
    CreationStamps(feed[c], k);
    CreatedOnce(feed, c, j, k);
    if c < j {
      SameOrderOf(feed, c + 1, e, k);
      UpdateStamps(RowAt(feed, j, k), feed[j], k);
    }
  }

  lemma CreationStamps(v: ContractEvent, k: RowKey)
    requires Creates(v, k)
    ensures Parse(v).Parsed? && RowWire(None, v, k).Some?
    ensures var row, e := RowWire(None, v, k).value, Parse(v).event;
            row.ledger == e.ledger && row.at == e.at && row.created == if k.dca then None else Some((e.ledger, e.at))
  {
    hide Parse, WrapToI64;
  }

  lemma UpdateStamps(row: Option<Row>, v: ContractEvent, k: RowKey)
    requires IsOpen(row) && Regress.IsUpdateOf(v, k)
    ensures Parse(v).Parsed? && RowWire(row, v, k).Some?
    ensures var row', e := RowWire(row, v, k).value, Parse(v).event; row'.ledger == e.ledger && row'.at == e.at
  {
    hide Parse, WrapToI64;
  }

  lemma LatestDue(feed: seq<ContractEvent>, j: nat, e: nat, k: RowKey)
    requires Orderly(feed) && e <= |feed| && IsLatestDue(feed, j, e, k)
    ensures RowAt(feed, e, k).Some? && RowAt(feed, j + 1, k).Some?
    ensures RowAt(feed, j + 1, k).value.next == RowAt(feed, e, k).value.next
  {
    hide RowAt, Orderly, RowWire, Creates, Rewrites, Regress.IsUpdateOf, RewrittenIn;
    NextInTurn(feed, j, k);
    RowsInTurn(feed, j, j + 1, k);
    StandsStill(feed, j + 1, e, k);
  }

  lemma CreatedOnce(feed: seq<ContractEvent>, i: nat, j: nat, k: RowKey)
    requires Orderly(feed) && i < |feed| && j < |feed| && Creates(feed[i], k)
    ensures Creates(feed[j], k) ==> i == j
    ensures Regress.IsUpdateOf(feed[j], k) ==> i < j
  {
    hide RowAt, Orderly, RowWire, Creates, Regress.IsUpdateOf;
    NextInTurn(feed, i, k);
    NextInTurn(feed, j, k);
    if i < j {
      RowsInTurn(feed, i + 1, j, k);
    } else if j < i {
      RowsInTurn(feed, j, i, k);
      RowsInTurn(feed, j + 1, i, k);
    }
  }

  lemma SameFirst(feed: seq<ContractEvent>, q: seq<nat>, c: nat, d: nat, k: RowKey)
    requires forall i :: 0 <= i < |q| ==> q[i] < |feed|
    requires FirstCreation(feed, q, c, k) && FirstCreation(feed, q, d, k)
    ensures c == d
  {
    hide Creates;
  }

  /** An order that is open at e was never read to be closed. */
  lemma OpenSoFar(feed: seq<ContractEvent>, j: nat, e: nat, k: RowKey)
    requires j < e <= |feed| && IsOpen(RowAt(feed, e, k)) && RowAt(feed, j + 1, k).Some?
    ensures IsOpen(RowAt(feed, j + 1, k))
  {
    hide RowAt;
    RowsInTurn(feed, j + 1, e, k);
  }

  lemma RightOpen(feed: seq<ContractEvent>, q: seq<nat>, e: nat, c: nat, f: nat, l: nat, row: Row, f': nat, l': nat, k: RowKey)
    requires Orderly(feed) && e <= |feed| && forall i :: 0 <= i < |q| ==> q[i] < e
    requires InOrder(feed, q, e, c, f, l, k) && Stems(feed, q, c, f', l', row, k) && IsOpen(RowAt(feed, e, k))
    ensures Some(row) == RowAt(feed, e, k)
  {
    hide RowAt, Orderly, RowWire, Creates, Rewrites, Regress.IsUpdateOf, Regress.UpdatedIn, IsLatestDue;
    LatestRow(feed, q[l], e, k);
    OpenSoFar(feed, q[l'], e, k);
    assert row == RowAt(feed, q[l'] + 1, k).value;
    if l' < l {
      CreatedOnce(feed, q[c], q[l], k);
      CreatedOnce(feed, q[c], q[l'], k);
      if Regress.IsUpdateOf(feed[q[l']], k) {
        UpdatedBetween(feed, q[l] + 1, q[l'], e, k);
      }
    }
  }

  lemma UpdatedBetween(feed: seq<ContractEvent>, s: nat, j: nat, e: nat, k: RowKey)
    requires s <= j < e <= |feed| && Regress.IsUpdateOf(feed[j], k)
    ensures Regress.UpdatedIn(feed, s, e, k)
  {
  }

  lemma RewrittenBetween(feed: seq<ContractEvent>, s: nat, j: nat, e: nat, k: RowKey)
    requires s <= j < e <= |feed| && Rewrites(feed[j], k)
    ensures RewrittenIn(feed, s, e, k)
  {
  }

  /** Only one event closes an order. */
  lemma ClosedOnce(feed: seq<ContractEvent>, i: nat, j: nat, k: RowKey)
    requires Orderly(feed) && i < |feed| && j < |feed| && Regress.IsUpdateOf(feed[i], k) && Regress.IsUpdateOf(feed[j], k)
    requires RowAt(feed, i + 1, k).Some? && !IsOpen(RowAt(feed, i + 1, k))
    ensures j <= i
  {
    hide RowAt, Orderly, RowWire, Creates, Regress.IsUpdateOf;
    NextInTurn(feed, j, k);
    if i < j {
      RowsInTurn(feed, i + 1, j, k);
    }
  }

  lemma RightClosed(feed: seq<ContractEvent>, q: seq<nat>, e: nat, c: nat, f: nat, l: nat, row: Row, f': nat, l': nat, k: RowKey)
    requires Orderly(feed) && e <= |feed| && forall i :: 0 <= i < |q| ==> q[i] < e
    requires InOrder(feed, q, e, c, f, l, k) && Stems(feed, q, c, f', l', row, k) && !IsOpen(RowAt(feed, e, k))
    ensures Some(row) == RowAt(feed, e, k)
  {
    hide RowAt, Orderly, RowWire, Creates, Rewrites, Regress.IsUpdateOf, Regress.UpdatedIn, IsLatestDue;
    LatestRow(feed, q[l], e, k);
    SameEnding(feed, q, e, c, f, l, row, f', l', k);
    SameDue(feed, q, e, c, f, f', l, k);
  }

  /** The place where the row was closed is the place where the order's last event was first read. */
  lemma SameEnding(feed: seq<ContractEvent>, q: seq<nat>, e: nat, c: nat, f: nat, l: nat, row: Row, f': nat, l': nat, k: RowKey)
    requires Orderly(feed) && e <= |feed| && forall i :: 0 <= i < |q| ==> q[i] < e
    requires InOrder(feed, q, e, c, f, l, k) && Stems(feed, q, c, f', l', row, k) && !IsOpen(RowAt(feed, e, k))
    ensures l == l' && !IsOpen(Some(row))
  {
    hide RowAt, Orderly, RowWire, Creates, Rewrites, Regress.IsUpdateOf, Regress.UpdatedIn, IsLatestDue;
    LatestRow(feed, q[l], e, k);
    CreationIsOpenAt(feed, q[l], k);
    CreationIsOpenAt(feed, q[c], k);
    assert Regress.IsUpdateOf(feed[q[l]], k);
    assert l' <= l && !IsOpen(Some(row));
    ClosedOnce(feed, q[l], q[l'], k);
    ClosedOnce(feed, q[l'], q[l], k);
  }

  lemma CreationIsOpenAt(feed: seq<ContractEvent>, j: nat, k: RowKey)
    requires Orderly(feed) && j < |feed|
    ensures Creates(feed[j], k) ==> IsOpen(RowAt(feed, j + 1, k))
  {
    hide RowAt, Orderly, Creates;
    if Creates(feed[j], k) {
      CreationIsOpen(feed, j, k);
    }
  }

  lemma SameDue(feed: seq<ContractEvent>, q: seq<nat>, e: nat, c: nat, f: nat, f': nat, l: nat, k: RowKey)
    requires Orderly(feed) && e <= |feed| && forall i :: 0 <= i < |q| ==> q[i] < e
    requires FirstCreation(feed, q, c, k) && c <= f <= l < |q| && c <= f' <= l
    requires IsLatestDue(feed, q[f], e, k) && IsLatest(feed, q[l], e, k)
    requires forall i :: f < i < l ==> !Rewrites(feed[q[i]], k)
    requires (f' == c || Rewrites(feed[q[f']], k)) && forall i :: f' < i <= l ==> !Rewrites(feed[q[i]], k)
    ensures RowAt(feed, e, k).Some? && RowAt(feed, q[f'] + 1, k).Some?
    ensures RowAt(feed, q[f'] + 1, k).value.next == RowAt(feed, e, k).value.next
  {
    hide RowAt, Orderly, RowWire, Creates, Rewrites, Regress.IsUpdateOf, Regress.UpdatedIn, RewrittenIn;
    LatestRow(feed, q[l], e, k);
    LatestDue(feed, q[f], e, k);
    if f > f' {
      CreatedOnce(feed, q[f], q[c], k);
      CreatedOnce(feed, q[f], q[f'], k);
      RewriteIsUpdate(feed[q[f']], k);
      if Rewrites(feed[q[f']], k) {
        RewrittenBetween(feed, q[f] + 1, q[f'], e, k);
      }
    }
  }

  /** An order that was read right has the row of a clean pass. */
  lemma RightIsClean(feed: seq<ContractEvent>, q: seq<nat>, e: nat, k: RowKey)
    requires Orderly(feed) && e <= |feed| && forall i :: 0 <= i < |q| ==> q[i] < e
    requires ReadRight(feed, q, e, k)
    ensures ReadRow(feed, q, k) == RowAt(feed, e, k)
  {
    hide RowAt, Orderly, RowWire, Creates, Stems, ReadRow, IsLatest, IsLatestDue, IsOpen;
    var c, f, l :| InOrder(feed, q, e, c, f, l, k);
    var c', f', l' := RowStems(feed, q, k);
    var row := ReadRow(feed, q, k).value;
    StemsFirst(feed, q, c', f', l', row, k);
    SameFirst(feed, q, c, c', k);
    hide InOrder;
    if IsOpen(RowAt(feed, e, k)) {
      RightOpen(feed, q, e, c, f, l, row, f', l', k);
    } else {
      RightClosed(feed, q, e, c, f, l, row, f', l', k);
    }
  }

  lemma StemsFirst(feed: seq<ContractEvent>, q: seq<nat>, c: nat, f: nat, l: nat, row: Row, k: RowKey)
    requires (forall i :: 0 <= i < |q| ==> q[i] < |feed|) && Stems(feed, q, c, f, l, row, k)
    ensures FirstCreation(feed, q, c, k)
  {
  }

  /** The same row but for the ledger and time of its last change. */
  ghost predicate Alike(a: Option<Row>, b: Option<Row>) {
    a.Some? && b.Some? && a.value.remaining == b.value.remaining && a.value.status == b.value.status && a.value.next == b.value.next
  }

  lemma AlikeHasLatest(feed: seq<ContractEvent>, q: seq<nat>, e: nat, c: nat, f: nat, l: nat, row: Row, k: RowKey)
    requires Orderly(feed) && Telling(feed) && e <= |feed| && forall i :: 0 <= i < |q| ==> q[i] < e
    requires Stems(feed, q, c, f, l, row, k) && Alike(Some(row), RowAt(feed, e, k))
    ensures IsLatest(feed, q[l], e, k)
  {
    hide RowAt, Orderly, RowWire, Creates, Rewrites, Regress.IsUpdateOf, Regress.UpdatedIn, Telling;
    if Regress.UpdatedIn(feed, q[l] + 1, e, k) {
      UpdatedWasOpen(feed, q[l] + 1, e, k);
      TellsHere(feed, q[l] + 1, e, k);
    }
  }

  lemma AlikeHasDue(feed: seq<ContractEvent>, q: seq<nat>, e: nat, c: nat, f: nat, l: nat, row: Row, k: RowKey)
    requires Orderly(feed) && Telling(feed) && e <= |feed| && forall i :: 0 <= i < |q| ==> q[i] < e
    requires Stems(feed, q, c, f, l, row, k) && Alike(Some(row), RowAt(feed, e, k))
    ensures IsLatestDue(feed, q[f], e, k)
  {
    hide RowAt, Orderly, RowWire, Creates, Rewrites, Regress.IsUpdateOf, RewrittenIn, Telling;
    AlikeHasLatest(feed, q, e, c, f, l, row, k);
    if RewrittenIn(feed, q[f] + 1, e, k) {
      LastDueMoved(feed, q[f], q[l], e, row, k);
    }
  }

  /** A later due date that the row does not have can only be the one its last event announces. */
  lemma LastDueMoved(feed: seq<ContractEvent>, n: nat, m: nat, e: nat, row: Row, k: RowKey)
    requires Orderly(feed) && Telling(feed) && n < e <= |feed| && IsLatest(feed, m, e, k) && RewrittenIn(feed, n + 1, e, k)
    requires StemRow(feed, n, m, row, k) && Alike(Some(row), RowAt(feed, e, k))
    ensures n < m && Rewrites(feed[m], k)
  {
    hide RowAt, Orderly, RowWire, Creates, Rewrites, Regress.IsUpdateOf, Regress.UpdatedIn, Telling;
    var d :| n + 1 <= d < e && Rewrites(feed[d], k);
    RewriteIsUpdate(feed[d], k);
    if d > m {
      UpdatedBetween(feed, m + 1, d, e, k);
    }
    if d < m {
      RewrittenBetween(feed, n + 1, d, m, k);
      TellsHere(feed, n + 1, m, k);
      CreatedOnceBefore(feed, d, m, k);
      NextInTurn(feed, m, k);
      LatestRow(feed, m, e, k);
      if !Rewrites(feed[m], k) {
        NotRewritten(feed, m, k);
        StandsStill(feed, m, m + 1, k);
      }
    }
  }

  lemma NotRewritten(feed: seq<ContractEvent>, m: nat, k: RowKey)
    requires m < |feed| && !Rewrites(feed[m], k)
    ensures !RewrittenIn(feed, m, m + 1, k)
  {
    hide Rewrites;
  }

  lemma CreatedOnceBefore(feed: seq<ContractEvent>, d: nat, m: nat, k: RowKey)
    requires Orderly(feed) && d < m < |feed| && Regress.IsUpdateOf(feed[d], k)
    ensures !Creates(feed[m], k)
  {
    hide Orderly, Creates, Regress.IsUpdateOf;
    if Creates(feed[m], k) {
      CreatedOnce(feed, m, d, k);
    }
  }

  /** Only an order that was read right can even look right. */
  lemma AlikeIsRight(feed: seq<ContractEvent>, q: seq<nat>, e: nat, k: RowKey)
    requires Orderly(feed) && Telling(feed) && e <= |feed| && forall i :: 0 <= i < |q| ==> q[i] < e
    requires Alike(ReadRow(feed, q, k), RowAt(feed, e, k))
    ensures ReadRight(feed, q, e, k)
  {
    hide RowAt, Orderly, RowWire, Creates, Rewrites, Regress.IsUpdateOf, ReadRow, IsLatest, IsLatestDue, Telling;
    var c, f, l := RowStems(feed, q, k);
    var row := ReadRow(feed, q, k).value;
    AlikeHasLatest(feed, q, e, c, f, l, row, k);
    AlikeHasDue(feed, q, e, c, f, l, row, k);
    assert InOrder(feed, q, e, c, f, l, k);
  }

  /** A row nobody created is missing after any reading. */
  lemma NeverRead(feed: seq<ContractEvent>, q: seq<nat>, e: nat, k: RowKey)
    requires Orderly(feed) && e <= |feed| && forall i :: 0 <= i < |q| ==> q[i] < e
    requires RowAt(feed, e, k).None?
    ensures ReadRow(feed, q, k).None?
  {
    hide RowAt, Orderly, Creates, ReadRow, Stems;
    var c, f, l := RowStems(feed, q, k);
    if ReadRow(feed, q, k).Some? {
      StemsFirst(feed, q, c, f, l, ReadRow(feed, q, k).value, k);
      CreationIsOpenAt(feed, q[c], k);
      RowsInTurn(feed, q[c] + 1, e, k);
    }
  }

  // ----- Any run -----

  /** Any run of the indexer from empty tables, from any cursor, with any polls, crashes, retries and backfills, safe or not:
      its tables are one clean pass up to e, past everything it read, if and only if every order created by then was read
      right. */
  lemma AnyRunExactly(feed: seq<ContractEvent>, cursor: uint32, actions: seq<Action>, e: nat)
    requires Orderly(feed) && Telling(feed) && e <= |feed|
    requires var q := Reads(feed, State(EMPTY, cursor), actions); forall i :: 0 <= i < |q| ==> q[i] < e
    ensures var q := Reads(feed, State(EMPTY, cursor), actions);
            Acts(feed, State(EMPTY, cursor), actions).tables == CleanPass(feed, e) <==>
            forall k :: RowAt(feed, e, k).Some? ==> ReadRight(feed, q, e, k)
  {
    hide RowAt, Orderly, Telling, Acts, Reads, ReadRight, Fold, At, CleanPass, Lookup;
    var t, q := Acts(feed, State(EMPTY, cursor), actions).tables, Reads(feed, State(EMPTY, cursor), actions);
    RunAppliesReads(feed, State(EMPTY, cursor), actions);
    forall k
      ensures Lookup(t, k) == Lookup(CleanPass(feed, e), k) <==> (RowAt(feed, e, k).Some? ==> ReadRight(feed, q, e, k))
    {
      ReadRowIs(feed, q, k);
      CleanRow(feed, e, k);
      if RowAt(feed, e, k).None? {
        NeverRead(feed, q, e, k);
      } else if ReadRight(feed, q, e, k) {
        RightIsClean(feed, q, e, k);
      } else if ReadRow(feed, q, k) == RowAt(feed, e, k) {
        AlikeIsRight(feed, q, e, k);
      }
    }
    if forall k :: Lookup(t, k) == Lookup(CleanPass(feed, e), k) {
      SameRowsSameTables(t, CleanPass(feed, e));
    }
  }

  lemma ReadRowIs(feed: seq<ContractEvent>, q: seq<nat>, k: RowKey)
    requires forall i :: 0 <= i < |q| ==> q[i] < |feed|
    ensures Lookup(Fold(EMPTY, At(feed, q)), k) == ReadRow(feed, q, k)
  {
    hide Fold, RowFold, At;
    FoldIsRowFold(EMPTY, At(feed, q), k);
  }
}
