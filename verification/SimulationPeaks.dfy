// The extremes the rows of the book and the database keep, key by key, over every run.

module SimulationPeaks {
  import opened Base
  import opened SimulationModel
  import opened SimulationRuns

  datatype Peak = LargestGap | SmallestGap | LargestPoolAge | LongestSimulation | LatestSeen

  /** An extreme of a row, as the largest of something. */
  function PeakOf(a: Aggregate, p: Peak): Option<int> {
    match p
    case LargestGap => if a.gapMax.Some? then Some(a.gapMax.value) else None
    case SmallestGap => if a.gapMin.Some? then Some(-(a.gapMin.value as int)) else None
    case LargestPoolAge => if a.maxPoolAgeMs.Some? then Some(a.maxPoolAgeMs.value) else None
    case LongestSimulation => Some(a.maxSimulationMs)
    case LatestSeen => Some(a.lastSeen)
  }

  function Capped(x: int, low: int, high: int): int {
    if x > high then high else if x < low then low else x
  }

  /** What one simulation offers to an extreme. */
  function PeakIn(sim: Simulation, p: Peak): Option<int> {
    match p
    case LargestGap => if sim.gap.Some? then Some(Capped(sim.gap.value, -1_000_000, 1_000_000)) else None
    case SmallestGap => if sim.gap.Some? then Some(-Capped(sim.gap.value, -1_000_000, 1_000_000)) else None
    case LargestPoolAge => if sim.poolAgeMs.Some? then Some(Capped(sim.poolAgeMs.value, 0, 0x7FFF_FFFF_FFFF_FFFF)) else None
    case LongestSimulation => Some(Capped(sim.elapsedMs, 0, 0x7FFF_FFFF_FFFF_FFFF))
    case LatestSeen => Some(sim.now)
  }

  function Larger(x: Option<int>, y: Option<int>): Option<int> {
    if x.None? then y else if y.None? then x else if x.value >= y.value then x else y
  }

  lemma LargerLaws(x: Option<int>, y: Option<int>, z: Option<int>)
    ensures Larger(x, None) == x && Larger(None, x) == x && Larger(x, x) == x
    ensures Larger(x, y) == Larger(y, x) && Larger(Larger(x, y), z) == Larger(x, Larger(y, z))
  {
  }

  lemma NewRowPeak(sim: Simulation, p: Peak)
    ensures PeakOf(NewRow(sim), p) == PeakIn(sim, p) && NewRow(sim).attempts == 1
  {
  }

  /** A merge keeps the extremes of both rows, saturating or not. */
  lemma MergePeak(a: Aggregate, b: Aggregate, p: Peak)
    ensures PeakOf(Merge(a, b), p) == Larger(PeakOf(a, p), PeakOf(b, p))
    ensures a.attempts > 0 ==> Merge(a, b).attempts > 0
  {
  }

  function Top(m: Rows, k: Dimension, p: Peak): Option<int> {
    if k in m then PeakOf(m[k], p) else None
  }

  function BatchTop(batch: seq<(Dimension, Aggregate)>, k: Dimension, p: Peak): Option<int> {
    if batch == [] then None
    else Larger(BatchTop(batch[..|batch| - 1], k, p), if batch[|batch| - 1].0 == k then PeakOf(batch[|batch| - 1].1, p) else None)
  }

  // ----- Rows that say something -----

  ghost predicate AllAlive(m: Rows) {
    forall k :: k in m ==> m[k].attempts > 0
  }

  ghost predicate BatchAlive(batch: seq<(Dimension, Aggregate)>) {
    forall i :: 0 <= i < |batch| ==> batch[i].1.attempts > 0
  }

  lemma UpsertTop(m: Rows, key: Dimension, row: Aggregate, k: Dimension, p: Peak)
    requires AllAlive(m) && row.attempts > 0
    ensures Top(Upsert(m, key, row), k, p) == Larger(Top(m, k, p), if key == k then PeakOf(row, p) else None)
    ensures AllAlive(Upsert(m, key, row))
  {
    hide Merge, PeakOf;
    if key in m {
      MergePeak(m[key], row, p);
    }
  }

  lemma PutTop(b: Book, key: Dimension, row: Aggregate, lost: nat, k: Dimension, p: Peak)
    requires AllAlive(b.pending) && row.attempts > 0 && lost > 0
    ensures var b' := Put(b, key, row, lost);
            && AllAlive(b'.pending) && b'.dropped >= b.dropped
            && (b'.dropped == b.dropped ==>
                  Top(b'.pending, k, p) == Larger(Top(b.pending, k, p), if key == k then PeakOf(row, p) else None))
  {
    hide Merge, PeakOf, AllAlive, Top;
    UpsertTop(b.pending, key, row, k, p);
  }

  lemma {:induction false} RecordTop(b: Book, keys: seq<Dimension>, row: Aggregate, k: Dimension, p: Peak)
    requires AllAlive(b.pending) && row.attempts > 0
    ensures var b' := Record(b, keys, row);
            && AllAlive(b'.pending) && b'.dropped >= b.dropped
            && (b'.dropped == b.dropped ==>
                  Top(b'.pending, k, p) == Larger(Top(b.pending, k, p), if k in keys then PeakOf(row, p) else None))
  {
    hide Put, AllAlive, Top, PeakOf, Larger;
    if keys == [] {
      LargerLaws(Top(b.pending, k, p), None, None);
    } else {
      var front, last := keys[..|keys| - 1], keys[|keys| - 1];
      RecordTop(b, front, row, k, p);
      PutTop(Record(b, front, row), last, row, 1, k, p);
      var x, y := Top(b.pending, k, p), PeakOf(row, p);
      LargerLaws(x, y, y);
      LargerLaws(y, y, y);
      LargerLaws(x, None, None);
      LargerLaws(Larger(x, y), None, None);
    }
  }

  lemma {:induction false} RestoreTop(b: Book, batch: seq<(Dimension, Aggregate)>, k: Dimension, p: Peak)
    requires AllAlive(b.pending) && BatchAlive(batch)
    ensures var b' := Restore(b, batch);
            && AllAlive(b'.pending) && b'.dropped >= b.dropped
            && (b'.dropped == b.dropped ==> Top(b'.pending, k, p) == Larger(Top(b.pending, k, p), BatchTop(batch, k, p)))
  {
    hide Put, AllAlive, Top, PeakOf, Larger;
    if batch == [] {
      LargerLaws(Top(b.pending, k, p), None, None);
    } else {
      var front, last := batch[..|batch| - 1], batch[|batch| - 1];
      RestoreTop(b, front, k, p);
      PutTop(Restore(b, front), last.0, last.1, last.1.attempts, k, p);
      LargerLaws(Top(b.pending, k, p), BatchTop(front, k, p), if last.0 == k then PeakOf(last.1, p) else None);
    }
  }

  lemma {:induction false} PersistTop(db: Rows, batch: seq<(Dimension, Aggregate)>, k: Dimension, p: Peak)
    requires AllAlive(db) && BatchAlive(batch)
    ensures AllAlive(Persist(db, batch)) && Top(Persist(db, batch), k, p) == Larger(Top(db, k, p), BatchTop(batch, k, p))
  {
    hide Upsert, AllAlive, Top, PeakOf, Larger;
    if batch == [] {
      LargerLaws(Top(db, k, p), None, None);
    } else {
      var front, last := batch[..|batch| - 1], batch[|batch| - 1];
      PersistTop(db, front, k, p);
      UpsertTop(Persist(db, front), last.0, last.1, k, p);
      LargerLaws(Top(db, k, p), BatchTop(front, k, p), if last.0 == k then PeakOf(last.1, p) else None);
    }
  }

  lemma {:induction false} RowsTop(m: Rows, keys: seq<Dimension>, k: Dimension, p: Peak)
    requires Distinct(keys) && forall i :: 0 <= i < |keys| ==> keys[i] in m
    ensures Top(m, k, p) == Larger(Top(m - Elements(keys), k, p), BatchTop(RowsOf(m, keys), k, p))
  {
    hide PeakOf;
    if keys == [] {
      assert m - Elements(keys) == m;
    } else {
      var front, last := keys[..|keys| - 1], keys[|keys| - 1];
      RowsTop(m, front, k, p);
      assert RowsOf(m, keys)[..|front|] == RowsOf(m, front);
      assert Elements(keys) == Elements(front) + {last};
    }
  }

  lemma TakeTop(b: Book, k: Dimension, p: Peak)
    requires AllAlive(b.pending)
    ensures Top(b.pending, k, p) == Larger(Top(Taken(b).pending, k, p), BatchTop(BatchOf(b), k, p))
    ensures AllAlive(Taken(b).pending) && BatchAlive(BatchOf(b)) && Taken(b).dropped == b.dropped
  {
    hide BatchKeys, Top, BatchTop, Larger;
    BatchKeysAreKeys(b.pending.Keys, b.cursor);
    RowsTop(b.pending, BatchKeys(b.pending.Keys, b.cursor), k, p);
  }

  // ----- Runs -----

  function Offered(a: Action, k: Dimension, p: Peak): Option<int> {
    match a
    case Recorded(keys, sim) => if k in keys then PeakIn(sim, p) else None
    case _ => None
  }

  /** The extreme of all that a run recorded under key k. */
  function RecordedTop(actions: seq<Action>, k: Dimension, p: Peak): Option<int> {
    if actions == [] then None else Larger(RecordedTop(actions[..|actions| - 1], k, p), Offered(actions[|actions| - 1], k, p))
  }

  function TopIn(s: State, k: Dimension, p: Peak): Option<int> {
    Larger(Top(s.book.pending, k, p), Larger(BatchTop(s.inFlight, k, p), Top(s.committed, k, p)))
  }

  ghost predicate Alive(s: State) {
    AllAlive(s.book.pending) && BatchAlive(s.inFlight) && AllAlive(s.committed)
  }

  lemma ActTop(s: State, a: Action, k: Dimension, p: Peak)
    requires Alive(s)
    ensures Alive(Act(s, a)) && Act(s, a).book.dropped >= s.book.dropped
    ensures Act(s, a).book.dropped == s.book.dropped ==> TopIn(Act(s, a), k, p) == Larger(TopIn(s, k, p), Offered(a, k, p))
  {
    hide AllAlive, Record, Restore, Persist, Taken, BatchOf, NewRow, Top, Larger, PeakOf;
    assert BatchTop([], k, p) == None;
    var x, y, z := Top(s.book.pending, k, p), BatchTop(s.inFlight, k, p), Top(s.committed, k, p);
    LargerLaws(x, y, z);
    LargerLaws(y, z, None);
    LargerLaws(z, None, None);
    LargerLaws(TopIn(s, k, p), None, None);
    match a {
      case Recorded(keys, sim) =>
        NewRowPeak(sim, p);
        RecordTop(s.book, keys, NewRow(sim), k, p);
        var o := if k in keys then PeakIn(sim, p) else None;
        LargerLaws(x, o, Larger(y, z));
        LargerLaws(o, Larger(y, z), None);
        LargerLaws(x, Larger(y, z), o);
      case Take =>
        if s.inFlight == [] {
          TakeTop(s.book, k, p);
          LargerLaws(Top(Taken(s.book).pending, k, p), BatchTop(BatchOf(s.book), k, p), z);
        }
      case Commit =>
        PersistTop(s.committed, s.inFlight, k, p);
        LargerLaws(None, Larger(z, y), None);
      case Fail =>
        RestoreTop(s.book, s.inFlight, k, p);
    }
  }

  /** Over any run from an empty book in which nothing was dropped: the extremes of the pending rows, the batch being written and
      the committed rows of a key are together those of what was recorded under it. */
  lemma {:induction false} RunPeaks(actions: seq<Action>, k: Dimension, p: Peak)
    requires Run(START, actions).book.dropped == 0
    ensures TopIn(Run(START, actions), k, p) == RecordedTop(actions, k, p) && Alive(Run(START, actions))
  {
    hide Alive, Act, TopIn;
    if actions == [] {
      NothingOnTop(k, p);
    } else {
      var front, last := actions[..|actions| - 1], actions[|actions| - 1];
      StaysAlive(front, k, p);
      ActTop(Run(START, front), last, k, p);
      RunPeaks(front, k, p);
    }
  }

  lemma {:induction false} StaysAlive(actions: seq<Action>, k: Dimension, p: Peak)
    ensures Alive(Run(START, actions))
  {
    hide Alive, Act;
    if actions == [] {
      NothingOnTop(k, p);
    } else {
      StaysAlive(actions[..|actions| - 1], k, p);
      ActTop(Run(START, actions[..|actions| - 1]), actions[|actions| - 1], k, p);
    }
  }

  lemma NothingOnTop(k: Dimension, p: Peak)
    ensures TopIn(START, k, p) == None && Alive(START)
  {
  }
}
