// Over every run of recording and flushing: nothing recorded is lost track of, and every key gets its turn.

module SimulationRuns {
  import opened Base
  import opened SimulationModel

  type Rows = map<Dimension, Aggregate>

  /** The attempts held by a table of rows. */
  ghost function Total(m: Rows): nat
    decreases |m|
  {
    if m == map[] then 0
    else
      NonEmptyKeys(m);
      var k := Least(m.Keys);
      FewerKeys(m, k);
      m[k].attempts + Total(m - {k})
  }

  lemma NonEmptyKeys(m: Rows)
    ensures m != map[] ==> m.Keys != {}
  {
    if m.Keys == {} {
      assert m == map[];
    }
  }

  lemma FewerKeys(m: Rows, k: Dimension)
    requires k in m
    ensures |m - {k}| == |m| - 1 && (m - {k}).Keys == m.Keys - {k}
  {
    assert (m - {k}).Keys == m.Keys - {k};
  }

  lemma {:induction false} TotalWithout(m: Rows, k: Dimension)
    requires k in m
    ensures Total(m) == m[k].attempts + Total(m - {k})
    decreases |m|
  {
    NonEmptyKeys(m);
    var least := Least(m.Keys);
    if k != least {
      FewerKeys(m, least);
      FewerKeys(m, k);
      TotalWithout(m - {least}, k);
      assert (m - {k}).Keys != {} by {
        assert least in (m - {k}).Keys;
      }
      TotalWithout(m - {k}, least);
      assert (m - {least}) - {k} == (m - {k}) - {least};
    }
  }

  lemma TotalUpdate(m: Rows, k: Dimension, row: Aggregate)
    ensures Total(m[k := row]) == Total(m) + row.attempts - if k in m then m[k].attempts else 0
    ensures k in m ==> m[k].attempts <= Total(m)
  {
    TotalWithout(m[k := row], k);
    if k in m {
      TotalWithout(m, k);
      assert m[k := row] - {k} == m - {k};
    } else {
      assert m[k := row] - {k} == m;
    }
  }

  ghost function BatchTotal(batch: seq<(Dimension, Aggregate)>): nat {
    if batch == [] then 0 else BatchTotal(batch[..|batch| - 1]) + batch[|batch| - 1].1.attempts
  }

  ghost predicate AllSound(m: Rows) {
    forall k :: k in m ==> Sound(m[k])
  }

  ghost predicate BatchSound(batch: seq<(Dimension, Aggregate)>) {
    forall i :: 0 <= i < |batch| ==> Sound(batch[i].1)
  }

  // ----- The database -----

  /** One row of `persist`: inserted, or added to the row already there. */
  function Upsert(db: Rows, key: Dimension, row: Aggregate): Rows {
    db[key := if key in db then Merge(db[key], row) else row]
  }

  function Persist(db: Rows, batch: seq<(Dimension, Aggregate)>): Rows {
    if batch == [] then db
    else Upsert(Persist(db, batch[..|batch| - 1]), batch[|batch| - 1].0, batch[|batch| - 1].1)
  }

  // ----- Taking a batch -----

  ghost predicate Distinct(keys: seq<Dimension>) {
    forall i, j :: 0 <= i < j < |keys| ==> keys[i] != keys[j]
  }

  lemma {:induction false} AsManyAsDistinct(s: seq<Dimension>)
    ensures |Elements(s)| <= |s|
    ensures |Elements(s)| == |s| ==> Distinct(s)
  {
    if s == [] {
      assert Elements(s) == {};
    } else {
      var front, last := s[..|s| - 1], s[|s| - 1];
      AsManyAsDistinct(front);
      assert Elements(s) == Elements(front) + {last};
    }
  }

  lemma BatchKeysAreKeys(keys: set<Dimension>, cursor: Option<Dimension>)
    ensures var batch := BatchKeys(keys, cursor);
            && Distinct(batch) && |batch| == Prefix(|keys|)
            && forall i :: 0 <= i < |batch| ==> batch[i] in keys
  {
    hide InOrder, Rotation;
    BatchIsRotationPrefix(keys, cursor);
    RotationShape(keys, cursor);
    var r := Rotation(keys, cursor);
    AsManyAsDistinct(r);
    assert forall i :: 0 <= i < |r| ==> r[i] in Elements(r);
  }

  function RowsOf(m: Rows, keys: seq<Dimension>): (rows: seq<(Dimension, Aggregate)>)
    requires forall i :: 0 <= i < |keys| ==> keys[i] in m
    ensures |rows| == |keys| && forall i :: 0 <= i < |rows| ==> rows[i] == (keys[i], m[keys[i]])
  {
    seq(|keys|, i requires 0 <= i < |keys| => (keys[i], m[keys[i]]))
  }

  /** `take_batch`: the rows of the next keys leave the book, and the cursor moves to the last of them. */
  function BatchOf(b: Book): seq<(Dimension, Aggregate)> {
    BatchKeysAreKeys(b.pending.Keys, b.cursor);
    RowsOf(b.pending, BatchKeys(b.pending.Keys, b.cursor))
  }

  function Taken(b: Book): Book {
    Book(b.pending - Elements(BatchKeys(b.pending.Keys, b.cursor)), NextCursor(b.pending.Keys, b.cursor), b.dropped)
  }

  lemma {:induction false} TotalOfRows(m: Rows, keys: seq<Dimension>)
    requires Distinct(keys) && forall i :: 0 <= i < |keys| ==> keys[i] in m
    ensures Total(m) == Total(m - Elements(keys)) + BatchTotal(RowsOf(m, keys))
  {
    if keys == [] {
      assert m - Elements(keys) == m;
    } else {
      var front, last := keys[..|keys| - 1], keys[|keys| - 1];
      TotalOfRows(m, front);
      assert RowsOf(m, keys)[..|front|] == RowsOf(m, front);
      TotalWithout(m - Elements(front), last);
      assert Elements(keys) == Elements(front) + {last};
      assert (m - Elements(front)) - {last} == m - Elements(keys);
    }
  }

  lemma TakeConserves(b: Book)
    ensures Total(b.pending) == Total(Taken(b).pending) + BatchTotal(BatchOf(b))
    ensures |Taken(b).pending| <= |b.pending| && Taken(b).dropped == b.dropped
    ensures AllSound(b.pending) ==> AllSound(Taken(b).pending) && BatchSound(BatchOf(b))
  {
    hide BatchKeys, Sound;
    BatchKeysAreKeys(b.pending.Keys, b.cursor);
    TotalOfRows(b.pending, BatchKeys(b.pending.Keys, b.cursor));
    FewerRows(b.pending, Elements(BatchKeys(b.pending.Keys, b.cursor)));
  }

  lemma FewerRows(m: Rows, s: set<Dimension>)
    ensures |m - s| <= |m|
  {
    var n := m - s;
    assert n.Keys <= m.Keys;
    assert m.Keys == n.Keys + (m.Keys - n.Keys);
  }

  // ----- Putting rows back -----

  lemma MergeAdds(a: Aggregate, b: Aggregate)
    requires a.attempts + b.attempts <= U64_MAX
    ensures Merge(a, b).attempts == a.attempts + b.attempts
  {
  }

  /** Attempts are accounted for as long as their own counter cannot saturate. */
  lemma PutConserves(b: Book, key: Dimension, row: Aggregate, lost: nat)
    requires lost == row.attempts && |b.pending| <= MAX_PENDING && Total(b.pending) + row.attempts <= U64_MAX
    ensures var b' := Put(b, key, row, lost);
            && Total(b'.pending) + b'.dropped == Total(b.pending) + b.dropped + row.attempts
            && |b'.pending| <= MAX_PENDING && b'.cursor == b.cursor && b'.dropped >= b.dropped
  {
    hide Merge;
    TotalUpdate(b.pending, key, if key in b.pending then Merge(b.pending[key], row) else row);
    if key in b.pending {
      MergeAdds(b.pending[key], row);
      assert b.pending[key := Merge(b.pending[key], row)].Keys == b.pending.Keys;
    }
  }

  lemma {:induction false} RecordConserves(b: Book, keys: seq<Dimension>, row: Aggregate)
    requires row.attempts == 1 && |b.pending| <= MAX_PENDING && Total(b.pending) + b.dropped + |keys| <= U64_MAX
    ensures var b' := Record(b, keys, row);
            && Total(b'.pending) + b'.dropped == Total(b.pending) + b.dropped + |keys|
            && |b'.pending| <= MAX_PENDING && b'.cursor == b.cursor && b'.dropped >= b.dropped
  {
    hide Put;
    if keys == [] {
    } else {
      RecordConserves(b, keys[..|keys| - 1], row);
      PutConserves(Record(b, keys[..|keys| - 1], row), keys[|keys| - 1], row, 1);
    }
  }

  lemma {:induction false} RestoreConserves(b: Book, batch: seq<(Dimension, Aggregate)>)
    requires |b.pending| <= MAX_PENDING && Total(b.pending) + b.dropped + BatchTotal(batch) <= U64_MAX
    ensures var b' := Restore(b, batch);
            && Total(b'.pending) + b'.dropped == Total(b.pending) + b.dropped + BatchTotal(batch)
            && |b'.pending| <= MAX_PENDING && b'.cursor == b.cursor && b'.dropped >= b.dropped
  {
    hide Put;
    if batch == [] {
    } else {
      var front, last := batch[..|batch| - 1], batch[|batch| - 1];
      RestoreConserves(b, front);
      PutConserves(Restore(b, front), last.0, last.1, last.1.attempts);
    }
  }

  lemma {:induction false} PersistConserves(db: Rows, batch: seq<(Dimension, Aggregate)>)
    requires Total(db) + BatchTotal(batch) <= U64_MAX
    ensures Total(Persist(db, batch)) == Total(db) + BatchTotal(batch)
  {
    hide Merge;
    if batch == [] {
    } else {
      var front, last := batch[..|batch| - 1], batch[|batch| - 1];
      PersistConserves(db, front);
      var m := Persist(db, front);
      TotalUpdate(m, last.0, if last.0 in m then Merge(m[last.0], last.1) else last.1);
      if last.0 in m {
        MergeAdds(m[last.0], last.1);
      }
    }
  }

  // ----- Rows stay sound -----

  lemma FewerIsExact(a: nat, b: nat)
    requires a <= b
    ensures Exact(b) ==> Exact(a) && b <= U64_MAX
  {
  }

  lemma UpsertIsSound(m: Rows, key: Dimension, row: Aggregate)
    requires AllSound(m) && Sound(row) && Exact(Total(m) + row.attempts)
    ensures AllSound(Upsert(m, key, row))
  {
    hide Sound, Merge, Exact;
    TotalUpdate(m, key, row);
    if key in m {
      FewerIsExact(m[key].attempts + row.attempts, Total(m) + row.attempts);
      MergeIsSound(m[key], row);
    }
  }

  lemma PutIsSound(b: Book, key: Dimension, row: Aggregate, lost: nat)
    requires AllSound(b.pending) && Sound(row) && Exact(Total(b.pending) + row.attempts)
    ensures AllSound(Put(b, key, row, lost).pending)
  {
    hide Sound, Merge, Exact, AllSound;
    UpsertIsSound(b.pending, key, row);
  }

  lemma {:induction false} RecordIsSound(b: Book, keys: seq<Dimension>, row: Aggregate)
    requires AllSound(b.pending) && Sound(row) && row.attempts == 1 && |b.pending| <= MAX_PENDING
    requires Exact(Total(b.pending) + b.dropped + |keys|)
    ensures AllSound(Record(b, keys, row).pending)
  {
    hide Total, Sound, AllSound, Put, Exact;
    if keys == [] {
    } else {
      var front := keys[..|keys| - 1];
      FewerIsExact(Total(b.pending) + b.dropped + |front|, Total(b.pending) + b.dropped + |keys|);
      RecordIsSound(b, front, row);
      RecordConserves(b, front, row);
      FewerIsExact(Total(Record(b, front, row).pending) + 1, Total(b.pending) + b.dropped + |keys|);
      PutIsSound(Record(b, front, row), keys[|keys| - 1], row, 1);
    }
  }

  lemma {:induction false} RestoreIsSound(b: Book, batch: seq<(Dimension, Aggregate)>)
    requires AllSound(b.pending) && BatchSound(batch) && |b.pending| <= MAX_PENDING
    requires Exact(Total(b.pending) + b.dropped + BatchTotal(batch))
    ensures AllSound(Restore(b, batch).pending)
  {
    hide Total, Sound, AllSound, Put, Exact;
    if batch == [] {
    } else {
      var front, last := batch[..|batch| - 1], batch[|batch| - 1];
      FewerIsExact(Total(b.pending) + b.dropped + BatchTotal(front), Total(b.pending) + b.dropped + BatchTotal(batch));
      RestoreIsSound(b, front);
      RestoreConserves(b, front);
      FewerIsExact(Total(Restore(b, front).pending) + last.1.attempts, Total(b.pending) + b.dropped + BatchTotal(batch));
      PutIsSound(Restore(b, front), last.0, last.1, last.1.attempts);
    }
  }

  lemma {:induction false} PersistIsSound(db: Rows, batch: seq<(Dimension, Aggregate)>)
    requires AllSound(db) && BatchSound(batch) && Exact(Total(db) + BatchTotal(batch))
    ensures AllSound(Persist(db, batch))
  {
    hide Total, Sound, AllSound, Upsert, Exact;
    if batch == [] {
    } else {
      var front, last := batch[..|batch| - 1], batch[|batch| - 1];
      FewerIsExact(Total(db) + BatchTotal(front), Total(db) + BatchTotal(batch));
      PersistIsSound(db, front);
      PersistConserves(db, front);
      FewerIsExact(Total(Persist(db, front)) + last.1.attempts, Total(db) + BatchTotal(batch));
      UpsertIsSound(Persist(db, front), last.0, last.1);
    }
  }

  // ----- Runs -----

  /** The book, the batch the writer holds, what it committed, and how many memberships were ever recorded. */
  datatype State = State(book: Book, inFlight: seq<(Dimension, Aggregate)>, committed: Rows, recorded: nat)

  const START := State(Book(map[], None, 0), [], map[], 0)

  /** Recording may happen between any two steps of the writer. */
  datatype Action = Recorded(keys: seq<Dimension>, sim: Simulation) | Take | Commit | Fail

  function Act(s: State, a: Action): State {
    match a
    case Recorded(keys, sim) => s.(book := Record(s.book, keys, NewRow(sim)), recorded := s.recorded + |keys|)
    case Take => if s.inFlight != [] then s else s.(book := Taken(s.book), inFlight := BatchOf(s.book))
    case Commit => s.(committed := Persist(s.committed, s.inFlight), inFlight := [])
    case Fail => s.(book := Restore(s.book, s.inFlight), inFlight := [])
  }

  function Run(s: State, actions: seq<Action>): State {
    if actions == [] then s else Act(Run(s, actions[..|actions| - 1]), actions[|actions| - 1])
  }

  ghost predicate Conserved(s: State) {
    && s.recorded == Total(s.book.pending) + BatchTotal(s.inFlight) + Total(s.committed) + s.book.dropped
    && |s.book.pending| <= 4096
  }

  ghost predicate RowsSound(s: State) {
    AllSound(s.book.pending) && BatchSound(s.inFlight) && AllSound(s.committed)
  }

  lemma ActConserves(s: State, a: Action)
    requires Conserved(s) && Act(s, a).recorded <= U64_MAX
    ensures Conserved(Act(s, a)) && Act(s, a).recorded >= s.recorded
  {
    hide Sound, AllSound, Record, Restore, Persist, Taken, BatchOf, NewRow;
    NothingInFlight();
    match a {
      case Recorded(keys, sim) =>
        NewRowIsSound(sim);
        RecordConserves(s.book, keys, NewRow(sim));
      case Take =>
        if s.inFlight == [] {
          TakeConserves(s.book);
        }
      case Commit => PersistConserves(s.committed, s.inFlight);
      case Fail => RestoreConserves(s.book, s.inFlight);
    }
  }

  lemma ActIsSound(s: State, a: Action)
    requires Conserved(s) && RowsSound(s) && Exact(Act(s, a).recorded)
    ensures RowsSound(Act(s, a))
  {
    hide Total, BatchTotal, Sound, AllSound, BatchSound, Record, Restore, Persist, Taken, BatchOf, Exact, NewRow;
    NothingInFlight();
    match a {
      case Recorded(keys, sim) =>
        NewRowIsSound(sim);
        FewerIsExact(Total(s.book.pending) + s.book.dropped + |keys|, s.recorded + |keys|);
        RecordIsSound(s.book, keys, NewRow(sim));
      case Take => TakeConserves(s.book);
      case Commit =>
        FewerIsExact(Total(s.committed) + BatchTotal(s.inFlight), s.recorded);
        PersistIsSound(s.committed, s.inFlight);
      case Fail =>
        FewerIsExact(Total(s.book.pending) + s.book.dropped + BatchTotal(s.inFlight), s.recorded);
        RestoreIsSound(s.book, s.inFlight);
    }
  }

  lemma NothingInFlight()
    ensures BatchTotal([]) == 0 && BatchSound([])
  {
  }

  lemma {:induction false} RecordedGrows(s: State, actions: seq<Action>, n: nat)
    requires n <= |actions|
    ensures Run(s, actions[..n]).recorded <= Run(s, actions).recorded
    decreases |actions|
  {
    hide Record, Restore, Persist, Taken, BatchOf;
    if n == |actions| {
      assert actions[..n] == actions;
    } else {
      RecordedGrows(s, actions[..|actions| - 1], n);
      assert actions[..|actions| - 1][..n] == actions[..n];
    }
  }

  /** Conservation, over any run from an empty book: as long as fewer memberships were recorded than an attempts counter holds,
      each is pending, in the batch being written, committed, or counted as dropped, and the book never exceeds its cap. And
      as long as they are too few to saturate a gap sum, in every row the outcomes add up to the attempts and the gap statistics
      are consistent. */
  lemma {:induction false} RunConserves(actions: seq<Action>)
    requires Run(START, actions).recorded <= U64_MAX
    ensures Conserved(Run(START, actions))
    ensures Exact(Run(START, actions).recorded) ==> RowsSound(Run(START, actions))
  {
    hide Conserved, RowsSound, Act, Exact;
    if actions == [] {
      StartIsConserved();
    } else {
      var front, last := actions[..|actions| - 1], actions[|actions| - 1];
      RecordedGrows(START, actions, |front|);
      FewerIsExact(Run(START, front).recorded, Run(START, actions).recorded);
      RunConserves(front);
      ActConserves(Run(START, front), last);
      if Exact(Run(START, actions).recorded) {
        ActIsSound(Run(START, front), last);
      }
    }
  }

  lemma StartIsConserved()
    ensures Conserved(START) && RowsSound(START)
  {
  }

  // ----- Round robin over real rounds -----

  /** A round whose batch fails: taken, put back, with recordings in between. */
  function Round(b: Book, records: seq<(seq<Dimension>, Aggregate)>): Book {
    Restore(RecordAll(Taken(b), records), BatchOf(b))
  }

  function RecordAll(b: Book, records: seq<(seq<Dimension>, Aggregate)>): Book {
    if records == [] then b
    else Record(RecordAll(b, records[..|records| - 1]), records[|records| - 1].0, records[|records| - 1].1)
  }

  /** The recordings of a round are for keys of this set. */
  ghost predicate Inside(records: seq<(seq<Dimension>, Aggregate)>, keys: set<Dimension>) {
    forall i :: 0 <= i < |records| ==> Elements(records[i].0) <= keys
  }

  lemma {:induction false} RecordInside(b: Book, ks: seq<Dimension>, row: Aggregate, keys: set<Dimension>)
    requires b.pending.Keys <= keys && |keys| <= MAX_PENDING && Elements(ks) <= keys
    ensures var b' := Record(b, ks, row);
            b.pending.Keys <= b'.pending.Keys <= keys && b'.cursor == b.cursor && b'.dropped == b.dropped
  {
    hide Merge;
    if ks == [] {
    } else {
      var front, last := ks[..|ks| - 1], ks[|ks| - 1];
      assert Elements(front) <= Elements(ks) && last in Elements(ks);
      RecordInside(b, front, row, keys);
      PutInside(Record(b, front, row), last, row, 1, keys);
    }
  }

  lemma PutInside(b: Book, key: Dimension, row: Aggregate, lost: nat, keys: set<Dimension>)
    requires b.pending.Keys <= keys && |keys| <= MAX_PENDING && key in keys
    ensures var b' := Put(b, key, row, lost);
            b'.pending.Keys == b.pending.Keys + {key} && b'.cursor == b.cursor && b'.dropped == b.dropped
  {
    hide Merge;
    if key !in b.pending {
      assert keys == b.pending.Keys + (keys - b.pending.Keys);
      assert key in keys - b.pending.Keys;
      assert |b.pending.Keys| < |keys|;
    }
  }

  lemma {:induction false} RecordAllInside(b: Book, records: seq<(seq<Dimension>, Aggregate)>, keys: set<Dimension>)
    requires b.pending.Keys <= keys && |keys| <= MAX_PENDING && Inside(records, keys)
    ensures var b' := RecordAll(b, records);
            b.pending.Keys <= b'.pending.Keys <= keys && b'.cursor == b.cursor && b'.dropped == b.dropped
  {
    hide Record;
    if records == [] {
    } else {
      RecordAllInside(b, records[..|records| - 1], keys);
      RecordInside(RecordAll(b, records[..|records| - 1]), records[|records| - 1].0, records[|records| - 1].1, keys);
    }
  }

  function KeysOf(batch: seq<(Dimension, Aggregate)>): set<Dimension> {
    set i | 0 <= i < |batch| :: batch[i].0
  }

  lemma {:induction false} RestoreInside(b: Book, batch: seq<(Dimension, Aggregate)>, keys: set<Dimension>)
    requires b.pending.Keys <= keys && |keys| <= MAX_PENDING && KeysOf(batch) <= keys
    ensures var b' := Restore(b, batch);
            b'.pending.Keys == b.pending.Keys + KeysOf(batch) && b'.cursor == b.cursor && b'.dropped == b.dropped
  {
    hide Put;
    if batch == [] {
      assert KeysOf(batch) == {};
    } else {
      var front, last := batch[..|batch| - 1], batch[|batch| - 1];
      assert KeysOf(batch) == KeysOf(front) + {last.0};
      RestoreInside(b, front, keys);
      PutInside(Restore(b, front), last.0, last.1, last.1.attempts, keys);
    }
  }

  /** A failed round keeps the keys and drops nothing; only the cursor has moved. */
  lemma RoundKeepsKeys(b: Book, records: seq<(seq<Dimension>, Aggregate)>)
    requires |b.pending| <= MAX_PENDING && Inside(records, b.pending.Keys)
    ensures var b' := Round(b, records);
            && b'.pending.Keys == b.pending.Keys && b'.dropped == b.dropped
            && b'.cursor == NextCursor(b.pending.Keys, b.cursor)
            && KeysOf(BatchOf(b)) == Elements(BatchKeys(b.pending.Keys, b.cursor))
  {
    hide BatchKeys, Restore, RecordAll, NextCursor;
    var keys := b.pending.Keys;
    BatchKeysAreKeys(keys, b.cursor);
    var batch := BatchKeys(keys, b.cursor);
    assert Taken(b).pending.Keys == keys - Elements(batch);
    RecordAllInside(Taken(b), records, keys);
    assert KeysOf(BatchOf(b)) == Elements(batch);
    RestoreInside(RecordAll(Taken(b), records), BatchOf(b), keys);
    assert keys == (keys - Elements(batch)) + Elements(batch);
  }

  /** The keys of the batches of some rounds in a row. */
  ghost function ServedBy(b: Book, rounds: seq<seq<(seq<Dimension>, Aggregate)>>): set<Dimension>
    decreases |rounds|
  {
    if rounds == [] then {} else KeysOf(BatchOf(b)) + ServedBy(Round(b, rounds[0]), rounds[1..])
  }

  lemma {:induction false} RoundsServe(b: Book, rounds: seq<seq<(seq<Dimension>, Aggregate)>>)
    requires |b.pending| <= MAX_PENDING && forall i :: 0 <= i < |rounds| ==> Inside(rounds[i], b.pending.Keys)
    ensures ServedBy(b, rounds) == Served(b.pending.Keys, b.cursor, |rounds|)
    decreases |rounds|
  {
    hide BatchKeys, NextCursor, Round, BatchOf;
    if rounds == [] {
    } else {
      RoundKeepsKeys(b, rounds[0]);
      var b' := Round(b, rounds[0]);
      assert |b'.pending| == |b'.pending.Keys| == |b.pending|;
      RoundsServe(b', rounds[1..]);
    }
  }

  /** With n keys whose batches always fail and come back, recordings of those keys going on all the while, any ceil(n / 128)
      rounds in a row take every key at least once. */
  lemma EveryKeyGetsItsTurn(b: Book, rounds: seq<seq<(seq<Dimension>, Aggregate)>>)
    requires |b.pending| <= MAX_PENDING && forall i :: 0 <= i < |rounds| ==> Inside(rounds[i], b.pending.Keys)
    requires |b.pending| <= |rounds| * 128
    ensures ServedBy(b, rounds) == b.pending.Keys
  {
    RoundsServe(b, rounds);
    EveryKeyServed(b.pending.Keys, b.cursor, |rounds|);
  }
}
