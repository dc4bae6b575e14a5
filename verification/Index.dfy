// The indexer's order tables: one statement per event, and why replaying events converges.

module Index {
  import opened Base
  import opened OrderEvents
  import opened ScVal

  /** An order row. Only a DCA row has a due date, and only a limit row keeps when it was created. */
  datatype Row = Row(terms: OrderTerms, remaining: string, status: string, next: Option<uint32>,
                     created: Option<(uint32, int64)>, ledger: uint32, at: int64)

  /** Primary key of both tables: the escrow contract and the order id as SQLite stores it. */
  type RowId = (Address, int64)

  datatype Tables = Tables(limits: map<RowId, Row>, dcas: map<RowId, Row>)

  const EMPTY := Tables(map[], map[])

  datatype RowKey = RowKey(dca: bool, id: RowId)

  function KeyOf(e: ParsedEvent): RowKey {
    RowKey(ForDca(e.change), (e.contract, WrapToI64(e.id)))
  }

  function Lookup(t: Tables, k: RowKey): Option<Row> {
    var rows := if k.dca then t.dcas else t.limits;
    if k.id in rows then Some(rows[k.id]) else None
  }

  function Store(t: Tables, k: RowKey, row: Row): Tables {
    if k.dca then t.(dcas := t.dcas[k.id := row]) else t.(limits := t.limits[k.id := row])
  }

  function NewRow(terms: OrderTerms, next: Option<uint32>, ledger: uint32, at: int64): Row {
    Row(terms, terms.amountIn, "open", next, if terms.LimitTerms? then Some((ledger, at)) else None, ledger, at)
  }

  function FilledStatus(remaining: string): string {
    if remaining == "0" then "filled" else "open"
  }

  /** The row an UPDATE leaves, for an open row. */
  function Updated(row: Row, e: ParsedEvent): Row {
    match e.change
    case Created(_, _) => row
    case FilledTo(remaining) => row.(remaining := remaining, status := FilledStatus(remaining), ledger := e.ledger, at := e.at)
    case DcaFilledTo(remaining, next) =>
      row.(remaining := remaining, next := Some(next), status := FilledStatus(remaining), ledger := e.ledger, at := e.at)
    case CancelledNow(_) => row.(remaining := "0", status := "cancelled", ledger := e.ledger, at := e.at)
    case ExpiredNow(_) => row.(remaining := "0", status := "expired", ledger := e.ledger, at := e.at)
  }

  /** INSERT OR IGNORE for a creation; for anything else an UPDATE guarded by status = 'open'. */
  function RowStep(row: Option<Row>, e: ParsedEvent): (r: Option<Row>)
    ensures row.Some? ==> r.Some?
  {
    if e.change.Created? then (if row.Some? then row else Some(NewRow(e.change.terms, e.change.due, e.ledger, e.at)))
    else if row.Some? && row.value.status == "open" then Some(Updated(row.value, e))
    else row
  }

  /** Whether a statement reports the event as applied. */
  function Applied(row: Option<Row>, e: ParsedEvent): bool {
    e.change.Created? || (row.Some? && row.value.status == "open")
  }

  function Apply(t: Tables, e: ParsedEvent): Tables {
    var row := RowStep(Lookup(t, KeyOf(e)), e);
    if row.Some? then Store(t, KeyOf(e), row.value) else t
  }

  /** Events that do not parse are skipped. */
  function ApplyWire(t: Tables, v: ContractEvent): Tables {
    var r := Parse(v);
    if r.Parsed? then Apply(t, r.event) else t
  }

  function Fold(t: Tables, events: seq<ContractEvent>): Tables {
    if events == [] then t else ApplyWire(Fold(t, events[..|events| - 1]), events[|events| - 1])
  }

  /** The effect of a wire event on the row with key k. */
  function RowWire(row: Option<Row>, v: ContractEvent, k: RowKey): Option<Row> {
    var r := Parse(v);
    if r.Parsed? && KeyOf(r.event) == k then RowStep(row, r.event) else row
  }

  function RowFold(row: Option<Row>, events: seq<ContractEvent>, k: RowKey): Option<Row> {
    if events == [] then row else RowWire(RowFold(row, events[..|events| - 1], k), events[|events| - 1], k)
  }

  // ----- Rows evolve independently -----

  lemma ApplyIsRowStep(t: Tables, v: ContractEvent, k: RowKey)
    ensures Lookup(ApplyWire(t, v), k) == RowWire(Lookup(t, k), v, k)
  {
    hide Parse, RowStep, ForDca, WrapToI64;
  }

  lemma {:induction false} FoldIsRowFold(t: Tables, events: seq<ContractEvent>, k: RowKey)
    ensures Lookup(Fold(t, events), k) == RowFold(Lookup(t, k), events, k)
  {
    hide ApplyWire, RowWire, Lookup;
    if events == [] {
    } else {
      FoldIsRowFold(t, events[..|events| - 1], k);
      ApplyIsRowStep(Fold(t, events[..|events| - 1]), events[|events| - 1], k);
    }
  }

  /** Tables with the same rows are the same tables. */
  lemma SameRowsSameTables(t: Tables, u: Tables)
    requires forall k :: Lookup(t, k) == Lookup(u, k)
    ensures t == u
  {
    forall id: RowId
      ensures id in t.limits <==> id in u.limits
      ensures id in t.limits ==> t.limits[id] == u.limits[id]
      ensures id in t.dcas <==> id in u.dcas
      ensures id in t.dcas ==> t.dcas[id] == u.dcas[id]
    {
      assert Lookup(t, RowKey(false, id)) == Lookup(u, RowKey(false, id));
      assert Lookup(t, RowKey(true, id)) == Lookup(u, RowKey(true, id));
    }
    assert t.limits == u.limits;
    assert t.dcas == u.dcas;
  }

  lemma {:induction false} RowFoldAppend(row: Option<Row>, a: seq<ContractEvent>, b: seq<ContractEvent>, k: RowKey)
    ensures RowFold(row, a + b, k) == RowFold(RowFold(row, a, k), b, k)
    decreases |b|
  {
    hide RowWire;
    if b == [] {
      assert a + b == a;
    } else {
      var front := b[..|b| - 1];
      RowFoldAppend(row, a, front, k);
      assert (a + b)[..|a + b| - 1] == a + front;
    }
  }

  // ----- Prefixes of one feed -----

  /** The row with key k after the first p events of the feed, in one clean pass. */
  function RowAt(feed: seq<ContractEvent>, p: nat, k: RowKey): Option<Row>
    requires p <= |feed|
  {
    RowFold(None, feed[..p], k)
  }

  lemma RowAtNext(feed: seq<ContractEvent>, p: nat, k: RowKey)
    requires p < |feed|
    ensures RowAt(feed, p + 1, k) == RowWire(RowAt(feed, p, k), feed[p], k)
  {
    assert feed[..p + 1][..p] == feed[..p];
  }

  predicate Creates(v: ContractEvent, k: RowKey) {
    var r := Parse(v);
    r.Parsed? && KeyOf(r.event) == k && r.event.change.Created?
  }

  ghost predicate NeverCreated(feed: seq<ContractEvent>, j: nat, k: RowKey) {
    forall i :: j <= i < |feed| ==> !Creates(feed[i], k)
  }

  /** No update precedes the creation of its order: the row is there, or it never will be. */
  ghost predicate Consistent(feed: seq<ContractEvent>) {
    forall j :: 0 <= j < |feed| ==> CreatedBefore(feed, j)
  }

  ghost predicate CreatedBefore(feed: seq<ContractEvent>, j: nat)
    requires j < |feed|
  {
    var r := Parse(feed[j]);
    r.Parsed? && !r.event.change.Created? ==>
      RowAt(feed, j, KeyOf(r.event)).Some? || NeverCreated(feed, j, KeyOf(r.event))
  }

  /** A row that is not there and is never created is never there. */
  lemma {:induction false} StaysMissing(feed: seq<ContractEvent>, j: nat, m: nat, k: RowKey)
    requires j <= m <= |feed| && RowAt(feed, j, k).None? && NeverCreated(feed, j, k)
    ensures RowAt(feed, m, k).None?
    decreases m
  {
    hide Parse, RowFold, WrapToI64, KeyOf;
    if j == m {
    } else {
      StaysMissing(feed, j, m - 1, k);
      RowAtNext(feed, m - 1, k);
      assert !Creates(feed[m - 1], k);
    }
  }

  predicate IsOpen(row: Option<Row>) {
    row.Some? && row.value.status == "open"
  }

  /** Same order: the parts of a row that no statement changes. */
  ghost predicate SameOrder(a: Option<Row>, b: Option<Row>) {
    a.Some? && b.Some? && a.value.terms == b.value.terms && a.value.created == b.value.created
  }

  ghost predicate WellTyped(row: Option<Row>, k: RowKey) {
    row.Some? ==> (row.value.next.Some? <==> k.dca)
  }

  lemma StepKeepsOrder(row: Option<Row>, v: ContractEvent, k: RowKey)
    requires WellTyped(row, k)
    ensures WellTyped(RowWire(row, v, k), k)
    ensures row.Some? ==> SameOrder(row, RowWire(row, v, k))
    ensures row.Some? && !IsOpen(row) ==> RowWire(row, v, k) == row
  {
    hide Parse, WrapToI64;
  }

  /** Later rows are the same order, and a closed row never changes again. */
  lemma {:induction false} LaterRow(feed: seq<ContractEvent>, p: nat, q: nat, k: RowKey)
    requires p <= q <= |feed|
    ensures WellTyped(RowAt(feed, q, k), k)
    ensures RowAt(feed, p, k).Some? ==> SameOrder(RowAt(feed, p, k), RowAt(feed, q, k))
    ensures RowAt(feed, p, k).Some? && !IsOpen(RowAt(feed, p, k)) ==> RowAt(feed, q, k) == RowAt(feed, p, k)
    decreases q
  {
    hide RowWire, RowFold;
    if q == 0 {
      NothingYet(feed, k);
    } else {
      if p < q {
        LaterRow(feed, p, q - 1, k);
      } else {
        LaterRow(feed, q - 1, q - 1, k);
      }
      RowAtNext(feed, q - 1, k);
      StepKeepsOrder(RowAt(feed, q - 1, k), feed[q - 1], k);
    }
  }

  lemma NothingYet(feed: seq<ContractEvent>, k: RowKey)
    ensures RowAt(feed, 0, k) == None
  {
  }

  /** Replaying an update on a row that is further along gives the row as of that update, or changes nothing. */
  lemma ReplayStep(feed: seq<ContractEvent>, m: nat, e: nat, k: RowKey)
    requires e < m <= |feed| && Consistent(feed)
    ensures var r := RowWire(RowAt(feed, m, k), feed[e], k);
            r == RowAt(feed, m, k) || r == RowAt(feed, e + 1, k)
  {
    hide Parse, RowFold, WrapToI64, NeverCreated;
    assert CreatedBefore(feed, e);
    RowAtNext(feed, e, k);
    if RowAt(feed, e, k).None? && NeverCreated(feed, e, k) {
      StaysMissing(feed, e, m, k);
    }
    LaterRow(feed, e, m, k);
    LaterRow(feed, e + 1, m, k);
    LaterRow(feed, e, e, k);
  }

  /** Replay, for one row: start from the row after m events and replay events s to e with s <= m. Short of m the row is
      as of m or as of e; from m on it is exactly as of e. */
  lemma {:induction false} ReplayRow(feed: seq<ContractEvent>, m: nat, s: nat, e: nat, k: RowKey)
    requires s <= m <= |feed| && s <= e <= |feed| && Consistent(feed)
    ensures var r := RowFold(RowAt(feed, m, k), feed[s..e], k);
            && (r == RowAt(feed, e, k) || (e < m && r == RowAt(feed, m, k)))
    decreases e
  {
    hide RowWire, RowAt, Consistent;
    if e == s {
      assert feed[s..e] == [];
    } else {
      ReplayRow(feed, m, s, e - 1, k);
      assert feed[s..e][..e - 1 - s] == feed[s..e - 1];
      assert feed[s..e][e - 1 - s] == feed[e - 1];
      RowAtNext(feed, e - 1, k);
      if e - 1 < m {
        ReplayStep(feed, m, e - 1, k);
      }
    }
  }
}
