// What the rows of the book and the database say, key by key and statistic by statistic, over every run.

module SimulationCounts {
  import opened Base
  import opened SimulationModel
  import opened SimulationRuns

  // ----- The additive statistics -----

  datatype Statistic =
    | Attempts | ReadyOnes | FeeRejectedOnes | EconomicFailures | StructuralFailures | PrepareErrors
    | OutputSamples | OptimisticSamples | GapTotal | MissingPoolAges

  function Value(a: Aggregate, f: Statistic): int {
    match f
    case Attempts => a.attempts
    case ReadyOnes => a.ready
    case FeeRejectedOnes => a.feeRejected
    case EconomicFailures => a.economicFailures
    case StructuralFailures => a.structuralFailures
    case PrepareErrors => a.prepareErrors
    case OutputSamples => a.outputSamples
    case OptimisticSamples => a.optimisticSamples
    case GapTotal => a.gapSum
    case MissingPoolAges => a.missingPoolAge
  }

  /** What one simulation adds to a statistic. Gaps count within a million basis points either way. */
  function Contribution(sim: Simulation, f: Statistic): int {
    match f
    case Attempts => 1
    case ReadyOnes => if sim.outcome == Ready then 1 else 0
    case FeeRejectedOnes => if sim.outcome == FeeRejected then 1 else 0
    case EconomicFailures => if sim.outcome == EconomicFailure then 1 else 0
    case StructuralFailures => if sim.outcome == StructuralFailure then 1 else 0
    case PrepareErrors => if sim.outcome == PrepareError then 1 else 0
    case OutputSamples => if sim.gap.Some? then 1 else 0
    case OptimisticSamples => if sim.gap.Some? && sim.gap.value > 0 then 1 else 0
    case GapTotal =>
      if sim.gap.None? then 0
      else if sim.gap.value > 1_000_000 then 1_000_000
      else if sim.gap.value < -1_000_000 then -1_000_000
      else sim.gap.value
    case MissingPoolAges => if sim.ageMissing then 1 else 0
  }

  lemma NewRowCounts(sim: Simulation, f: Statistic)
    ensures Value(NewRow(sim), f) == Contribution(sim, f)
  {
  }

  /** Below saturation a merge adds every statistic of the two rows, and no other. */
  lemma MergeCounts(a: Aggregate, b: Aggregate, f: Statistic)
    requires Sound(a) && Sound(b) && Exact(a.attempts + b.attempts)
    ensures Value(Merge(a, b), f) == Value(a, f) + Value(b, f)
  {
    GapSumBound(a);
    GapSumBound(b);
  }

  /** A row without attempts says nothing. */
  lemma EmptyRow(a: Aggregate, f: Statistic)
    requires Sound(a) && a.attempts == 0
    ensures Value(a, f) == 0
  {
  }

  /** What a table, or a batch, says of a statistic for key k. */
  function Held(m: Rows, k: Dimension, f: Statistic): int {
    if k in m then Value(m[k], f) else 0
  }

  function BatchHeld(batch: seq<(Dimension, Aggregate)>, k: Dimension, f: Statistic): int {
    if batch == [] then 0
    else BatchHeld(batch[..|batch| - 1], k, f) + if batch[|batch| - 1].0 == k then Value(batch[|batch| - 1].1, f) else 0
  }

  /** A row is dropped exactly when its key is new and 4096 keys are pending; otherwise its key is pending afterwards. */
  lemma DropsExactly(b: Book, key: Dimension, row: Aggregate, lost: nat)
    ensures var b' := Put(b, key, row, lost);
            if key !in b.pending && |b.pending| >= 4096 then b' == b.(dropped := b.dropped + lost)
            else b'.dropped == b.dropped && b'.pending.Keys == b.pending.Keys + {key}
  {
    hide Merge;
  }

  lemma UpsertHeld(m: Rows, key: Dimension, row: Aggregate, k: Dimension, f: Statistic)
    requires AllSound(m) && Sound(row) && Exact(Total(m) + row.attempts)
    ensures Held(Upsert(m, key, row), k, f) == Held(m, k, f) + if key == k then Value(row, f) else 0
  {
    hide Sound, Merge, Exact, Value;
    TotalUpdate(m, key, row);
    if key in m {
      FewerIsExact(m[key].attempts + row.attempts, Total(m) + row.attempts);
      MergeCounts(m[key], row, f);
    }
  }

  lemma PutHeld(b: Book, key: Dimension, row: Aggregate, lost: nat, k: Dimension, f: Statistic)
    requires AllSound(b.pending) && Sound(row) && Exact(Total(b.pending) + row.attempts)
    requires Put(b, key, row, lost).dropped == b.dropped && lost == row.attempts
    ensures Held(Put(b, key, row, lost).pending, k, f) == Held(b.pending, k, f) + if key == k then Value(row, f) else 0
  {
    hide Sound, Merge, Exact, AllSound, Value;
    if key in b.pending || |b.pending| < MAX_PENDING {
      UpsertHeld(b.pending, key, row, k, f);
    } else {
      EmptyRow(row, f);
    }
  }

  /** How often a recording names key k. */
  function Times(keys: seq<Dimension>, k: Dimension): nat {
    if keys == [] then 0 else Times(keys[..|keys| - 1], k) + if keys[|keys| - 1] == k then 1 else 0
  }

  lemma {:induction false} RecordHeld(b: Book, keys: seq<Dimension>, row: Aggregate, k: Dimension, f: Statistic)
    requires AllSound(b.pending) && Sound(row) && row.attempts == 1 && |b.pending| <= MAX_PENDING
    requires Exact(Total(b.pending) + b.dropped + |keys|) && Record(b, keys, row).dropped == b.dropped
    ensures Held(Record(b, keys, row).pending, k, f) == Held(b.pending, k, f) + Times(keys, k) * Value(row, f)
  {
    hide Total, Sound, AllSound, Put, Exact, Held, Value;
    if keys == [] {
    } else {
      var front, last := keys[..|keys| - 1], keys[|keys| - 1];
      var b' := Record(b, front, row);
      FewerIsExact(Total(b.pending) + b.dropped + |front|, Total(b.pending) + b.dropped + |keys|);
      RecordConserves(b, front, row);
      RecordIsSound(b, front, row);
      DroppedGrows(b', last, row, 1);
      RecordHeld(b, front, row, k, f);
      FewerIsExact(Total(b'.pending) + 1, Total(b.pending) + b.dropped + |keys|);
      PutHeld(b', last, row, 1, k, f);
      OneMore(Times(front, k), Value(row, f));
    }
  }

  lemma OneMore(n: nat, x: int)
    ensures (n + 1) * x == n * x + x
  {
  }

  lemma DroppedGrows(b: Book, key: Dimension, row: Aggregate, lost: nat)
    ensures Put(b, key, row, lost).dropped >= b.dropped
  {
    hide Merge;
  }

  lemma {:induction false} RestoreHeld(b: Book, batch: seq<(Dimension, Aggregate)>, k: Dimension, f: Statistic)
    requires AllSound(b.pending) && BatchSound(batch) && |b.pending| <= MAX_PENDING
    requires Exact(Total(b.pending) + b.dropped + BatchTotal(batch)) && Restore(b, batch).dropped == b.dropped
    ensures Held(Restore(b, batch).pending, k, f) == Held(b.pending, k, f) + BatchHeld(batch, k, f)
  {
    hide Total, Sound, AllSound, Put, Exact, Held, Value;
    if batch == [] {
    } else {
      var front, last := batch[..|batch| - 1], batch[|batch| - 1];
      var b' := Restore(b, front);
      FewerIsExact(Total(b.pending) + b.dropped + BatchTotal(front), Total(b.pending) + b.dropped + BatchTotal(batch));
      RestoreConserves(b, front);
      RestoreIsSound(b, front);
      DroppedGrows(b', last.0, last.1, last.1.attempts);
      RestoreHeld(b, front, k, f);
      FewerIsExact(Total(b'.pending) + last.1.attempts, Total(b.pending) + b.dropped + BatchTotal(batch));
      PutHeld(b', last.0, last.1, last.1.attempts, k, f);
    }
  }

  lemma {:induction false} PersistHeld(db: Rows, batch: seq<(Dimension, Aggregate)>, k: Dimension, f: Statistic)
    requires AllSound(db) && BatchSound(batch) && Exact(Total(db) + BatchTotal(batch))
    ensures Held(Persist(db, batch), k, f) == Held(db, k, f) + BatchHeld(batch, k, f)
  {
    hide Total, Sound, AllSound, Upsert, Exact, Held, Value;
    if batch == [] {
    } else {
      var front, last := batch[..|batch| - 1], batch[|batch| - 1];
      FewerIsExact(Total(db) + BatchTotal(front), Total(db) + BatchTotal(batch));
      PersistHeld(db, front, k, f);
      PersistIsSound(db, front);
      PersistConserves(db, front);
      FewerIsExact(Total(Persist(db, front)) + last.1.attempts, Total(db) + BatchTotal(batch));
      UpsertHeld(Persist(db, front), last.0, last.1, k, f);
    }
  }

  lemma {:induction false} RowsHeld(m: Rows, keys: seq<Dimension>, k: Dimension, f: Statistic)
    requires Distinct(keys) && forall i :: 0 <= i < |keys| ==> keys[i] in m
    ensures Held(m, k, f) == Held(m - Elements(keys), k, f) + BatchHeld(RowsOf(m, keys), k, f)
  {
    hide Value;
    if keys == [] {
      assert m - Elements(keys) == m;
    } else {
      var front, last := keys[..|keys| - 1], keys[|keys| - 1];
      RowsHeld(m, front, k, f);
      assert RowsOf(m, keys)[..|front|] == RowsOf(m, front);
      assert Elements(keys) == Elements(front) + {last};
    }
  }

  lemma TakeHeld(b: Book, k: Dimension, f: Statistic)
    ensures Held(b.pending, k, f) == Held(Taken(b).pending, k, f) + BatchHeld(BatchOf(b), k, f)
  {
    hide BatchKeys, Held;
    BatchKeysAreKeys(b.pending.Keys, b.cursor);
    RowsHeld(b.pending, BatchKeys(b.pending.Keys, b.cursor), k, f);
  }

  // ----- Runs -----

  function AddedBy(a: Action, k: Dimension, f: Statistic): int {
    match a
    case Recorded(keys, sim) => Times(keys, k) * Contribution(sim, f)
    case _ => 0
  }

  /** What a run recorded of a statistic under key k. */
  function Recorded(actions: seq<Action>, k: Dimension, f: Statistic): int {
    if actions == [] then 0
    else
      Recorded(actions[..|actions| - 1], k, f) + AddedBy(actions[|actions| - 1], k, f)
  }

  function HeldIn(s: State, k: Dimension, f: Statistic): int {
    Held(s.book.pending, k, f) + BatchHeld(s.inFlight, k, f) + Held(s.committed, k, f)
  }

  lemma ActHeld(s: State, a: Action, k: Dimension, f: Statistic)
    requires Conserved(s) && RowsSound(s) && Exact(Act(s, a).recorded) && Act(s, a).book.dropped == s.book.dropped
    ensures HeldIn(Act(s, a), k, f)
            == HeldIn(s, k, f) + AddedBy(a, k, f)
  {
    hide Total, BatchTotal, Sound, AllSound, BatchSound, Record, Restore, Persist, Taken, BatchOf, Exact, NewRow, Held, Value;
    NothingHeld(k, f);
    match a {
      case Recorded(keys, sim) =>
        NewRowIsSound(sim);
        NewRowCounts(sim, f);
        FewerIsExact(Total(s.book.pending) + s.book.dropped + |keys|, s.recorded + |keys|);
        RecordHeld(s.book, keys, NewRow(sim), k, f);
      case Take => TakeHeld(s.book, k, f);
      case Commit =>
        FewerIsExact(Total(s.committed) + BatchTotal(s.inFlight), s.recorded);
        PersistHeld(s.committed, s.inFlight, k, f);
      case Fail =>
        FewerIsExact(Total(s.book.pending) + s.book.dropped + BatchTotal(s.inFlight), s.recorded);
        RestoreHeld(s.book, s.inFlight, k, f);
    }
  }

  lemma NothingHeld(k: Dimension, f: Statistic)
    ensures BatchHeld([], k, f) == 0
  {
  }

  lemma ActDrops(s: State, a: Action)
    requires Conserved(s) && Act(s, a).recorded <= U64_MAX
    ensures Act(s, a).book.dropped >= s.book.dropped
  {
    hide Sound, AllSound, Record, Restore, Persist, Taken, BatchOf, NewRow;
    NothingInFlight();
    match a {
      case Recorded(keys, sim) =>
        NewRowIsSound(sim);
        RecordConserves(s.book, keys, NewRow(sim));
      case Take =>
        if s.inFlight == [] {
          TakeConserves(s.book);
        }
      case Commit =>
      case Fail => RestoreConserves(s.book, s.inFlight);
    }
  }

  /** Conservation by key and statistic, over any run from an empty book in which nothing was dropped and too little recorded to
      saturate: what the pending rows, the batch being written and the committed rows say of any statistic of a key adds up to
      what was recorded under that key. In particular every outcome is counted as itself. */
  lemma {:induction false} RunCounts(actions: seq<Action>, k: Dimension, f: Statistic)
    requires Exact(Run(START, actions).recorded) && Run(START, actions).book.dropped == 0
    ensures HeldIn(Run(START, actions), k, f) == Recorded(actions, k, f)
  {
    hide Conserved, RowsSound, Act, Exact, HeldIn;
    if actions == [] {
      StartHolds(k, f);
    } else {
      var front, last := actions[..|actions| - 1], actions[|actions| - 1];
      RecordedGrows(START, actions, |front|);
      FewerIsExact(Run(START, front).recorded, Run(START, actions).recorded);
      FewerIsExact(Run(START, actions).recorded, Run(START, actions).recorded);
      RunConserves(front);
      ActDrops(Run(START, front), last);
      RunCounts(front, k, f);
      ActHeld(Run(START, front), last, k, f);
    }
  }

  lemma StartHolds(k: Dimension, f: Statistic)
    ensures HeldIn(START, k, f) == 0
  {
  }
}
