// The simulation book and the flush that drains it, updated in place.

module SimulationBook {
  import opened Base
  import opened SimulationModel
  import opened SimulationRuns

  class SimulationBook {
    var pending: map<Dimension, Aggregate>
    var cursor: Option<Dimension>
    var dropped: nat

    constructor ()
      ensures Snapshot() == Book(map[], None, 0)
    {
      pending, cursor, dropped := map[], None, 0;
    }

    function Snapshot(): Book
      reads this
    {
      Book(pending, cursor, dropped)
    }

    method PutRow(key: Dimension, row: Aggregate, lost: nat)
      modifies this
      ensures Snapshot() == Put(old(Snapshot()), key, row, lost)
    {
      if key in pending {
        pending := pending[key := Merge(pending[key], row)];
      } else if |pending| < MAX_PENDING {
        pending := pending[key := row];
      } else {
        dropped := dropped + lost;
      }
    }

    /** `record`, from the row on: the same row under every dimension of the simulation. */
    method Record(keys: seq<Dimension>, row: Aggregate)
      modifies this
      ensures Snapshot() == SimulationModel.Record(old(Snapshot()), keys, row)
    {
      hide Put;
      assert keys[..0] == [];
      for i := 0 to |keys|
        invariant Snapshot() == SimulationModel.Record(old(Snapshot()), keys[..i], row)
      {
        PutRow(keys[i], row, 1);
        assert keys[..i + 1][..i] == keys[..i];
      }
      assert keys[..|keys|] == keys;
    }

    /** `take_batch`: the range after the cursor, then the range up to it, then the removals. */
    method TakeBatch() returns (batch: seq<(Dimension, Aggregate)>)
      modifies this
      ensures batch == BatchOf(old(Snapshot()))
      ensures Snapshot() == Taken(old(Snapshot()))
    {
      hide InOrder, FirstOf, After, UpTo, NextCursor;
      BatchKeysAreKeys(pending.Keys, cursor);
      NextCursorIs(pending.Keys, cursor);
      FirstOfFits(pending.Keys, cursor);
      var keys;
      if cursor.Some? {
        keys := FirstOf(InOrder(After(pending.Keys, cursor.value)), BATCH_SIZE);
        keys := keys + FirstOf(InOrder(UpTo(pending.Keys, cursor.value)), BATCH_SIZE - |keys|);
      } else {
        keys := FirstOf(InOrder(pending.Keys), BATCH_SIZE);
      }
      if keys != [] {
        cursor := Some(keys[|keys| - 1]);
      }
      batch := RemoveRows(keys);
    }

    method RemoveRows(keys: seq<Dimension>) returns (batch: seq<(Dimension, Aggregate)>)
      requires Distinct(keys) && forall i :: 0 <= i < |keys| ==> keys[i] in pending
      modifies this`pending
      ensures batch == RowsOf(old(pending), keys) && pending == old(pending) - Elements(keys)
    {
      batch := [];
      ghost var was := pending;
      ghost var rows := RowsOf(was, keys);
      assert was - Elements(keys[..0]) == was;
      for i := 0 to |keys|
        invariant pending == was - Elements(keys[..i]) && batch == rows[..i]
      {
        assert keys[i] !in keys[..i];
        assert Elements(keys[..i + 1]) == Elements(keys[..i]) + {keys[i]};
        batch := batch + [(keys[i], pending[keys[i]])];
        pending := pending - {keys[i]};
      }
      assert keys[..|keys|] == keys && rows[..|keys|] == rows;
    }

    /** `restore`. */
    method Restore(batch: seq<(Dimension, Aggregate)>)
      modifies this
      ensures Snapshot() == SimulationModel.Restore(old(Snapshot()), batch)
    {
      hide Put;
      assert batch[..0] == [];
      for i := 0 to |batch|
        invariant Snapshot() == SimulationModel.Restore(old(Snapshot()), batch[..i])
      {
        PutRow(batch[i].0, batch[i].1, batch[i].1.attempts);
        assert batch[..i + 1][..i] == batch[..i];
      }
      assert batch[..|batch|] == batch;
    }
  }

  lemma NextCursorIs(keys: set<Dimension>, cursor: Option<Dimension>)
    ensures var batch := BatchKeys(keys, cursor);
            NextCursor(keys, cursor) == if batch == [] then cursor else Some(batch[|batch| - 1])
  {
  }

  lemma FirstOfFits(keys: set<Dimension>, cursor: Option<Dimension>)
    ensures cursor.Some? ==> |FirstOf(InOrder(After(keys, cursor.value)), BATCH_SIZE)| <= BATCH_SIZE
  {
  }

  /** The metrics table. */
  class Metrics {
    var rows: map<Dimension, Aggregate>

    constructor ()
      ensures rows == map[]
    {
      rows := map[];
    }

    /** `persist`: one transaction. A database that fails leaves the table as it was. */
    method Persist(batch: seq<(Dimension, Aggregate)>, healthy: bool) returns (ok: bool)
      modifies this
      ensures ok == healthy
      ensures rows == if ok then SimulationRuns.Persist(old(rows), batch) else old(rows)
    {
      if !healthy {
        return false;
      }
      assert batch[..0] == [];
      for i := 0 to |batch|
        invariant rows == SimulationRuns.Persist(old(rows), batch[..i])
      {
        assert batch[..i + 1][..i] == batch[..i];
        rows := Upsert(rows, batch[i].0, batch[i].1);
      }
      assert batch[..|batch|] == batch;
      ok := true;
    }
  }

  /** The turns of one flush as steps of the model: take, then commit or put back, and stop when there is nothing to take, after
      a failure, after a slow write or after eight batches. */
  function FlushTurns(s: State, healthy: seq<bool>, slow: seq<bool>, turn: nat): State
    requires |healthy| == |slow| == 8 && turn <= 8
    decreases 8 - turn
  {
    if turn == 8 then s
    else
      var taken := Act(s, Take);
      if taken.inFlight == [] then taken
      else if !healthy[turn] then Act(taken, Fail)
      else if slow[turn] then Act(taken, Commit)
      else FlushTurns(Act(taken, Commit), healthy, slow, turn + 1)
  }

  /** `flush`. Which writes fail and which are slow is up to the environment. */
  method Flush(book: SimulationBook, metrics: Metrics, healthy: seq<bool>, slow: seq<bool>, ghost recorded: nat)
    requires |healthy| == |slow| == 8
    modifies book, metrics
    ensures var was := State(old(book.Snapshot()), [], old(metrics.rows), recorded);
            State(book.Snapshot(), [], metrics.rows, recorded) == FlushTurns(was, healthy, slow, 0)
  {
    hide BatchOf, Taken, SimulationModel.Restore, SimulationRuns.Persist;
    ghost var was := State(book.Snapshot(), [], metrics.rows, recorded);
    for turn := 0 to 8
      invariant FlushTurns(State(book.Snapshot(), [], metrics.rows, recorded), healthy, slow, turn) == FlushTurns(was, healthy, slow, 0)
    {
      var batch := book.TakeBatch();
      if batch == [] {
        return;
      }
      var ok := metrics.Persist(batch, healthy[turn]);
      if !ok {
        book.Restore(batch);
        return;
      }
      if slow[turn] {
        return;
      }
    }
  }

  /** A whole flush loses nothing: it only moves memberships from pending to committed, or, when a write fails on a book
      that filled up meanwhile, to the dropped count. */
  lemma {:induction false} FlushConserves(s: State, healthy: seq<bool>, slow: seq<bool>, turn: nat)
    requires |healthy| == |slow| == 8 && turn <= 8
    requires Conserved(s) && s.inFlight == [] && s.recorded <= U64_MAX
    ensures Conserved(FlushTurns(s, healthy, slow, turn)) && FlushTurns(s, healthy, slow, turn).recorded == s.recorded
    ensures FlushTurns(s, healthy, slow, turn).inFlight == []
    decreases 8 - turn
  {
    hide Conserved, BatchOf, Taken, SimulationModel.Restore, SimulationRuns.Persist;
    if turn == 8 {
    } else {
      ActConserves(s, Take);
      var taken := Act(s, Take);
      if taken.inFlight != [] {
        ActConserves(taken, Fail);
        ActConserves(taken, Commit);
        if healthy[turn] && !slow[turn] {
          FlushConserves(Act(taken, Commit), healthy, slow, turn + 1);
        }
      }
    }
  }

  /** A flush is a run: some turns that commit, at most eight, and then a reason to stop: eight turns are over, the last one was slow,
      nothing is left to take, or the database refused the batch, which went back. */
  ghost predicate Stops(s: State, healthy: seq<bool>, slow: seq<bool>, n: nat, end: State)
    requires |healthy| == |slow| == 8 && n <= 8
  {
    || (end == s && (n == 8 || (n > 0 && slow[n - 1])))
    || (n < 8 && Act(s, Take).inFlight == [] && end == Act(s, Take))
    || (n < 8 && Act(s, Take).inFlight != [] && !healthy[n] && end == Act(Act(s, Take), Fail))
  }

  /** The state after n turns that took a batch and committed it. */
  function Committed(s: State, n: nat): State {
    if n == 0 then s else Act(Act(Committed(s, n - 1), Take), Commit)
  }

  lemma {:induction false} FlushShape(s: State, healthy: seq<bool>, slow: seq<bool>, turn: nat) returns (n: nat)
    requires |healthy| == |slow| == 8 && turn <= 8 && (turn > 0 ==> !slow[turn - 1])
    ensures turn <= n <= 8 && Stops(Committed(s, n - turn), healthy, slow, n, FlushTurns(s, healthy, slow, turn))
    ensures forall i :: turn <= i < n ==> healthy[i] && (i < n - 1 ==> !slow[i])
    ensures forall i :: 0 <= i < n - turn ==> Act(Committed(s, i), Take).inFlight != []
    decreases 8 - turn
  {
    hide Act;
    assert Committed(s, 0) == s;
    if turn == 8 {
      n := 8;
    } else {
      var taken := Act(s, Take);
      if taken.inFlight == [] || !healthy[turn] {
        n := turn;
      } else if slow[turn] {
        n := turn + 1;
        assert Committed(s, 1) == Act(taken, Commit);
      } else {
        n := FlushShape(Act(taken, Commit), healthy, slow, turn + 1);
        forall i | 0 <= i < n - turn
          ensures Committed(s, i + 1) == Committed(Act(taken, Commit), i) && Act(Committed(s, i), Take).inFlight != []
        {
          CommittedShift(s, i);
          if i > 0 {
            CommittedShift(s, i - 1);
          }
        }
      }
    }
  }

  lemma {:induction false} CommittedShift(s: State, n: nat)
    ensures Committed(s, n + 1) == Committed(Act(Act(s, Take), Commit), n)
  {
    hide Act;
    if n == 0 {
      assert Committed(s, 0) == s;
    } else {
      CommittedShift(s, n - 1);
    }
  }
}
