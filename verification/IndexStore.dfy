// The index database and the processes that write it, statement by statement.

module IndexStore {
  import opened Base
  import opened Index
  import opened Ingest
  import opened OrderEvents
  import opened ScVal

  /** How many of the events report themselves applied, starting from given tables. */
  function AppliedCount(t: Tables, events: seq<ContractEvent>): (n: nat)
    ensures n <= |events|
  {
    if events == [] then 0
    else
      var front := events[..|events| - 1];
      var r := Parse(events[|events| - 1]);
      AppliedCount(t, front) + if r.Parsed? && Applied(Lookup(Fold(t, front), KeyOf(r.event)), r.event) then 1 else 0
  }

  class IndexStore {
    var limits: map<RowId, Row>
    var dcas: map<RowId, Row>
    var cursor: uint32

    constructor (start: uint32)
      ensures Snapshot() == State(EMPTY, start)
    {
      limits, dcas, cursor := map[], map[], start;
    }

    function Snapshot(): State
      reads this
    {
      State(Rows(), cursor)
    }

    function Rows(): Tables
      reads this
    {
      Tables(limits, dcas)
    }

    // ----- Limit orders -----

    /** INSERT OR IGNORE. */
    method UpsertCreatedFor(id: RowId, terms: OrderTerms, createdLedger: uint32, createdAt: int64)
      modifies this`limits
      ensures limits == if id in old(limits) then old(limits)
                        else old(limits)[id := Row(terms, terms.amountIn, "open", None, Some((createdLedger, createdAt)), createdLedger, createdAt)]
    {
      if id !in limits {
        limits := limits[id := Row(terms, terms.amountIn, "open", None, Some((createdLedger, createdAt)), createdLedger, createdAt)];
      }
    }

    /** UPDATE ... WHERE status = 'open'; whether a row was updated. */
    method ApplyFilledFor(id: RowId, remaining: string, ledger: uint32, at: int64) returns (updated: bool)
      modifies this`limits
      ensures updated <==> id in old(limits) && old(limits)[id].status == "open"
      ensures limits == if !updated then old(limits)
                        else old(limits)[id := old(limits)[id].(remaining := remaining, ledger := ledger, at := at,
                                                                status := if remaining == "0" then "filled" else "open")]
    {
      var status := if remaining == "0" then "filled" else "open";
      updated := id in limits && limits[id].status == "open";
      if updated {
        limits := limits[id := limits[id].(remaining := remaining, status := status, ledger := ledger, at := at)];
      }
    }

    method ApplyClosedFor(id: RowId, status: string, ledger: uint32, at: int64) returns (updated: bool)
      modifies this`limits
      ensures updated <==> id in old(limits) && old(limits)[id].status == "open"
      ensures limits == if !updated then old(limits)
                        else old(limits)[id := old(limits)[id].(remaining := "0", status := status, ledger := ledger, at := at)]
    {
      updated := id in limits && limits[id].status == "open";
      if updated {
        limits := limits[id := limits[id].(status := status, remaining := "0", ledger := ledger, at := at)];
      }
    }

    // ----- DCA orders -----

    method UpsertDcaCreatedFor(id: RowId, terms: OrderTerms, next: Option<uint32>, ledger: uint32, at: int64)
      modifies this`dcas
      ensures dcas == if id in old(dcas) then old(dcas)
                      else old(dcas)[id := Row(terms, terms.amountIn, "open", next, None, ledger, at)]
    {
      if id !in dcas {
        dcas := dcas[id := Row(terms, terms.amountIn, "open", next, None, ledger, at)];
      }
    }

    method ApplyDcaFilledFor(id: RowId, remaining: string, next: uint32, ledger: uint32, at: int64) returns (updated: bool)
      modifies this`dcas
      ensures updated <==> id in old(dcas) && old(dcas)[id].status == "open"
      ensures dcas == if !updated then old(dcas)
                      else old(dcas)[id := old(dcas)[id].(remaining := remaining, next := Some(next), ledger := ledger, at := at,
                                                          status := if remaining == "0" then "filled" else "open")]
    {
      var status := if remaining == "0" then "filled" else "open";
      updated := id in dcas && dcas[id].status == "open";
      if updated {
        dcas := dcas[id := dcas[id].(remaining := remaining, next := Some(next), status := status, ledger := ledger, at := at)];
      }
    }

    /** The DCA twin refuses any closing status but the two it knows. */
    method ApplyDcaClosedFor(id: RowId, status: string, ledger: uint32, at: int64) returns (r: Result<bool>)
      modifies this`dcas
      ensures r.Ok? <==> status == "cancelled" || status == "expired"
      ensures r.Ok? ==> (r.value <==> id in old(dcas) && old(dcas)[id].status == "open")
      ensures dcas == if r.Ok? && r.value
                      then old(dcas)[id := old(dcas)[id].(remaining := "0", status := status, ledger := ledger, at := at)]
                      else old(dcas)
    {
      if status != "cancelled" && status != "expired" {
        return Err(Trap);
      }
      var updated := id in dcas && dcas[id].status == "open";
      if updated {
        dcas := dcas[id := dcas[id].(remaining := "0", status := status, ledger := ledger, at := at)];
      }
      r := Ok(updated);
    }

    // ----- Events -----

    /** One event is one statement. None of the statuses it writes is refused, so its only failures are the database's. */
    method ApplyParsedOrderEvent(e: ParsedEvent) returns (applied: bool)
      requires WellFormed(e.change)
      modifies this`limits, this`dcas
      ensures Rows() == Apply(old(Rows()), e)
      ensures applied == Applied(Lookup(old(Rows()), KeyOf(e)), e)
    {
      var id := (e.contract, WrapToI64(e.id));
      match e.change {
        case Created(terms, due) =>
          if terms.DcaTerms? {
            UpsertDcaCreatedFor(id, terms, due, e.ledger, e.at);
          } else {
            UpsertCreatedFor(id, terms, e.ledger, e.at);
          }
          applied := true;
        case FilledTo(remaining) =>
          applied := ApplyFilledFor(id, remaining, e.ledger, e.at);
        case DcaFilledTo(remaining, next) =>
          applied := ApplyDcaFilledFor(id, remaining, next, e.ledger, e.at);
        case CancelledNow(dca) =>
          applied := ApplyClosed(id, dca, "cancelled", e.ledger, e.at);
        case ExpiredNow(dca) =>
          applied := ApplyClosed(id, dca, "expired", e.ledger, e.at);
      }
    }

    method ApplyClosed(id: RowId, dca: bool, status: string, ledger: uint32, at: int64) returns (applied: bool)
      requires status == "cancelled" || status == "expired"
      modifies this`limits, this`dcas
      ensures var row := Lookup(old(Rows()), RowKey(dca, id));
              && (applied <==> row.Some? && row.value.status == "open")
              && Rows() == if applied then Store(old(Rows()), RowKey(dca, id),
                                                 row.value.(remaining := "0", status := status, ledger := ledger, at := at))
                           else old(Rows())
    {
      if dca {
        var r := ApplyDcaClosedFor(id, status, ledger, at);
        applied := r.value;
      } else {
        applied := ApplyClosedFor(id, status, ledger, at);
      }
    }

    /** Applies a batch in order and counts what was applied. `budget` is how many events the process lives to see; past it
        the next event fails, with everything before it already stored. */
    method IngestEscrowOrderEvents(events: seq<ContractEvent>, budget: Option<nat>) returns (r: Result<nat>)
      modifies this`limits, this`dcas
      ensures Survives(events, budget) ==> Rows() == Fold(old(Rows()), events) && r == Ok(AppliedCount(old(Rows()), events))
      ensures !Survives(events, budget) ==> Rows() == Fold(old(Rows()), events[..budget.value]) && r.Err?
    {
      hide Parse, Applied;
      var applied := 0;
      var i := 0;
      while i < |events|
        invariant 0 <= i <= |events| && (budget.Some? ==> i <= budget.value)
        invariant Rows() == Fold(old(Rows()), events[..i]) && applied == AppliedCount(old(Rows()), events[..i])
      {
        assert events[..i + 1][..i] == events[..i];
        if budget == Some(i) {
          return Err(Trap);
        }
        var parsed := Parse(events[i]);
        if parsed.Parsed? {
          var ok := ApplyParsedOrderEvent(parsed.event);
          if ok {
            applied := applied + 1;
          }
        }
        i := i + 1;
      }
      assert events[..i] == events;
      if budget == Some(i) {
        return Err(Trap);
      }
      r := Ok(applied);
    }

    // ----- The processes -----

    /** The order part of `ingest_range`: fetch a range and apply it. The RPC client refuses ledger zero. */
    method IngestRange(feed: seq<ContractEvent>, start: uint32, end: uint32, budget: Option<nat>) returns (r: Result<nat>)
      requires start <= end
      modifies this`limits, this`dcas
      ensures start == 0 ==> r.Err? && Rows() == old(Rows())
      ensures start > 0 ==> (r.Ok? <==> Survives(Fetch(feed, start, end), budget))
      ensures start > 0 ==> State(Rows(), if r.Ok? then end else cursor) == Batch(feed, old(Snapshot()), start, end, budget)
    {
      if start == 0 {
        return Err(Trap);
      }
      r := IngestEscrowOrderEvents(Fetch(feed, start, end), budget);
    }

    /** One turn of the polling loop: the cursor row is written only after the whole batch. */
    method Poll(feed: seq<ContractEvent>, latest: uint32, budget: Option<nat>)
      modifies this
      ensures Snapshot() == Ingest.Poll(feed, old(Snapshot()), latest, budget)
    {
      if cursor >= latest {
        return;
      }
      var end := BatchEnd(cursor, latest);
      var r := IngestRange(feed, cursor, end, budget);
      if r.Ok? {
        cursor := end;
      }
    }

    /** A one-shot backfill. */
    method Backfill(feed: seq<ContractEvent>, from: uint32, latest: uint32, budget: Option<nat>) returns (r: Result<nat>)
      modifies this
      ensures Snapshot() == Ingest.Backfill(feed, old(Snapshot()), from, latest, budget)
    {
      var current: uint32 := from;
      var left := budget;
      var total := 0;
      while current < latest
        invariant Ingest.Backfill(feed, Snapshot(), current, latest, left) == Ingest.Backfill(feed, old(Snapshot()), from, latest, budget)
        decreases latest - current
      {
        var end := BatchEnd(current, latest);
        var n :- IngestRange(feed, current, end, left);
        cursor := end;
        left := Left(Fetch(feed, current, end), left);
        total := total + n;
        current := end;
      }
      r := Ok(total);
    }
  }
}
