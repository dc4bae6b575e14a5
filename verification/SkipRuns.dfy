// What a backfill that leaves a gap does to the order tables, exactly, over whatever runs follow it.

module SkipRuns {
  import opened Base
  import opened Index
  import opened Ingest
  import opened OrderEvents
  import opened Skip
  import Decimal
  import Regress

  // ----- The protocol past a gap -----

  lemma BeforeIs(feed: seq<ContractEvent>, L: int, b: nat)
    requires b <= |feed| && (forall i :: 0 <= i < b ==> feed[i].ledger < L) && (b < |feed| ==> feed[b].ledger >= L)
    ensures Before(feed, L) == b
  {
    var c := Before(feed, L);
    assert c < |feed| ==> feed[c].ledger >= L;
  }

  /** The feed as a row sees it that is as of event x while the cursor goes on from ledger `from`. */
  function Gap(feed: seq<ContractEvent>, x: nat, from: uint32): seq<ContractEvent>
    requires x <= Before(feed, from)
  {
    Without(feed, x, Before(feed, from))
  }

  lemma BeforeInGap(feed: seq<ContractEvent>, x: nat, from: uint32, L: int)
    requires x <= Before(feed, from) && from <= L
    ensures Before(feed, from) <= Before(feed, L)
    ensures Before(Gap(feed, x, from), L) == x + (Before(feed, L) - Before(feed, from))
  {
    hide Before;
    BeforeMonotone(feed, from, L);
    var s, e := Before(feed, from), Before(feed, L);
    var shorter := Gap(feed, x, from);
    forall i | 0 <= i < x + (e - s)
      ensures shorter[i].ledger < L
    {
      assert shorter[i] == if i < x then feed[i] else feed[s + (i - x)];
    }
    BeforeIs(shorter, L, x + (e - s));
  }

  lemma FetchInGap(feed: seq<ContractEvent>, x: nat, from: uint32, start: uint32, end: uint32)
    requires x <= Before(feed, from) && from <= start
    ensures Fetch(Gap(feed, x, from), start, end) == Fetch(feed, start, end)
  {
    hide Before, Gap;
    if start <= end {
      BeforeInGap(feed, x, from, start);
      BeforeInGap(feed, x, from, end);
      BeforeMonotone(feed, start, end);
      SliceWithout(feed, x, Before(feed, from), Before(feed, start), Before(feed, end));
      GapIsWithout(feed, x, from);
    }
  }

  lemma GapIsWithout(feed: seq<ContractEvent>, x: nat, from: uint32)
    requires x <= Before(feed, from)
    ensures Gap(feed, x, from) == Without(feed, x, Before(feed, from))
  {
  }

  lemma SliceWithout(feed: seq<ContractEvent>, x: nat, s: nat, a: nat, b: nat)
    requires x <= s <= a <= b <= |feed|
    ensures Without(feed, x, s)[x + (a - s)..x + (b - s)] == feed[a..b]
  {
  }

  lemma BatchInGap(feed: seq<ContractEvent>, x: nat, from: uint32, s: State, start: uint32, end: uint32, budget: Option<nat>)
    requires x <= Before(feed, from) && from <= start <= end && from <= s.cursor
    ensures Batch(Gap(feed, x, from), s, start, end, budget) == Batch(feed, s, start, end, budget)
    ensures Batch(feed, s, start, end, budget).cursor >= from
  {
    hide Before, Fetch, Fold;
    FetchInGap(feed, x, from, start, end);
  }

  lemma {:induction false} BackfillInGap(feed: seq<ContractEvent>, x: nat, from: uint32, s: State, start: uint32, latest: uint32,
                                         budget: Option<nat>)
    requires x <= Before(feed, from) && from <= start && from <= s.cursor
    ensures Backfill(Gap(feed, x, from), s, start, latest, budget) == Backfill(feed, s, start, latest, budget)
    ensures Backfill(feed, s, start, latest, budget).cursor >= from
    decreases latest - start
  {
    hide Batch, Fetch, Gap, Before;
    if start >= latest || start == 0 {
    } else {
      var end := BatchEnd(start, latest);
      BatchInGap(feed, x, from, s, start, end, budget);
      FetchInGap(feed, x, from, start, end);
      if Survives(Fetch(feed, start, end), budget) {
        BackfillInGap(feed, x, from, Batch(feed, s, start, end, budget), end, latest, Left(Fetch(feed, start, end), budget));
      }
    }
  }

  /** Nothing goes back into the gap. */
  ghost predicate StaysPast(actions: seq<Action>, from: uint32) {
    forall i :: 0 <= i < |actions| && actions[i].Backfilled? ==> actions[i].from >= from
  }

  /** A run that stays past the gap does not see it, and is as safe without it. */
  lemma {:induction false} RunInGap(feed: seq<ContractEvent>, x: nat, from: uint32, s: State, actions: seq<Action>)
    requires x <= Before(feed, from) && from <= s.cursor && StaysPast(actions, from)
    ensures Acts(Gap(feed, x, from), s, actions) == Acts(feed, s, actions)
    ensures Acts(feed, s, actions).cursor >= from
    ensures SafeRun(feed, s, actions) ==> SafeRun(Gap(feed, x, from), s, actions)
  {
    hide Act, Gap, Before, SafeAction;
    if actions == [] {
    } else {
      var front, last := actions[..|actions| - 1], actions[|actions| - 1];
      RunInGap(feed, x, from, s, front);
      ActInGap(feed, x, from, Acts(feed, s, front), last);
    }
  }

  lemma ActInGap(feed: seq<ContractEvent>, x: nat, from: uint32, s: State, a: Action)
    requires x <= Before(feed, from) && from <= s.cursor && (a.Backfilled? ==> a.from >= from)
    ensures Act(Gap(feed, x, from), s, a) == Act(feed, s, a) && Act(feed, s, a).cursor >= from
    ensures SafeAction(feed, s, a) ==> SafeAction(Gap(feed, x, from), s, a)
  {
    hide Batch, Backfill, Gap, Before, Fetch;
    match a {
      case Polled(latest, budget) =>
        if 0 < s.cursor < latest {
          BatchInGap(feed, x, from, s, s.cursor, BatchEnd(s.cursor, latest), budget);
        }
      case Backfilled(start, latest, budget) =>
        BackfillInGap(feed, x, from, s, start, latest, budget);
        BeforeInGap(feed, x, from, start);
        BeforeInGap(feed, x, from, s.cursor);
        if start < latest {
          FetchInGap(feed, x, from, start, BatchEnd(start, latest));
        }
    }
  }

  lemma GapIsConsistent(feed: seq<ContractEvent>, x: nat, from: uint32)
    requires Orderly(feed) && x <= Before(feed, from)
    ensures Consistent(Gap(feed, x, from))
  {
    hide Before;
    WithoutIsConsistent(feed, x, Before(feed, from));
  }

  /** A row as of event x when the cursor is at ledger `from` is sound for the feed without the gap. */
  lemma SoundAtGap(feed: seq<ContractEvent>, x: nat, from: uint32, s: State, k: RowKey, L: int)
    requires x <= Before(feed, from) && s.cursor == from <= L && Lookup(s.tables, k) == RowAt(feed, x, k)
    ensures Sound(Gap(feed, x, from), s, k, L)
  {
    hide Before, RowAt, Lookup, RowFold;
    BeforeInGap(feed, x, from, from);
    BeforeInGap(feed, x, from, L);
    RowBeforeGap(feed, x, Before(feed, from), x, k);
  }

  /** After a run past the gap such a row is the one read ahead of it. */
  lemma GapRowConverges(feed: seq<ContractEvent>, x: nat, from: uint32, s: State, actions: seq<Action>, k: RowKey)
    requires Orderly(feed) && x <= Before(feed, from) && from <= s.cursor && StaysPast(actions, from) && SafeRun(feed, s, actions)
    requires var c := Acts(feed, s, actions).cursor; Sound(Gap(feed, x, from), s, k, c) && Within(actions, c)
    ensures var r := Acts(feed, s, actions);
            && Before(feed, from) <= Before(feed, r.cursor)
            && Lookup(r.tables, k) == Ahead(feed, x, Before(feed, from), Before(feed, r.cursor), k)
  {
    hide Before, Sound, SafeRun, Acts, RowAt, Ahead, Consistent, Lookup, Gap, Within;
    RunInGap(feed, x, from, s, actions);
    GapIsConsistent(feed, x, from);
    SoundRowConverges(Gap(feed, x, from), s, actions, k);
    var c := Acts(feed, s, actions).cursor;
    BeforeInGap(feed, x, from, c);
    RowInGap(feed, x, from, c, k);
  }

  lemma RowInGap(feed: seq<ContractEvent>, x: nat, from: uint32, c: uint32, k: RowKey)
    requires x <= Before(feed, from) <= Before(feed, c)
    ensures var y := x + (Before(feed, c) - Before(feed, from));
            && y <= |Gap(feed, x, from)|
            && RowAt(Gap(feed, x, from), y, k) == Ahead(feed, x, Before(feed, from), Before(feed, c), k)
  {
    hide Before, RowAt, Ahead;
    RowWithout(feed, x, Before(feed, from), Before(feed, c), k);
  }

  // ----- A backfill past the cursor -----

  /** A backfill whose first batch completes forgets where the cursor was. */
  lemma LeapForgets(feed: seq<ContractEvent>, s: State, cursor: uint32, from: uint32, latest: uint32, budget: Option<nat>)
    requires 0 < from < latest && Survives(Fetch(feed, from, BatchEnd(from, latest)), budget)
    ensures Backfill(feed, s, from, latest, budget) == Backfill(feed, State(s.tables, cursor), from, latest, budget)
  {
    hide Fetch, Fold;
  }

  lemma LeapStaysPast(feed: seq<ContractEvent>, s: State, from: uint32, latest: uint32, budget: Option<nat>)
    requires 0 < from < latest && Survives(Fetch(feed, from, BatchEnd(from, latest)), budget)
    ensures Backfill(feed, s, from, latest, budget).cursor >= from
  {
    hide Before, Backfill, Fetch, Gap;
    LeapForgets(feed, s, from, from, latest, budget);
    BackfillInGap(feed, Before(feed, from), from, State(s.tables, from), from, latest, budget);
  }

  /** Right after the leap every row is sound for the feed without the gap. */
  lemma LeapIsSound(feed: seq<ContractEvent>, s: State, from: uint32, latest: uint32, budget: Option<nat>, k: RowKey, L: int)
    requires Orderly(feed) && Clean(feed, s) && s.cursor <= from && 0 < from < latest <= L
    requires Survives(Fetch(feed, from, BatchEnd(from, latest)), budget)
    ensures var p := Before(feed, s.cursor);
            && p <= Before(feed, from)
            && Sound(Gap(feed, p, from), Backfill(feed, s, from, latest, budget), k, L)
            && Backfill(feed, s, from, latest, budget).cursor >= from
  {
    hide Before, Sound, RowAt, Consistent, Backfill, Fetch, Gap, Clean, Lookup;
    var p, leapt := Before(feed, s.cursor), State(s.tables, from);
    BeforeMonotone(feed, s.cursor, from);
    CleanMeans(feed, s);
    SoundAtGap(feed, p, from, leapt, k, L);
    GapIsConsistent(feed, p, from);
    LeapForgets(feed, s, from, from, latest, budget);
    BackfillInGap(feed, p, from, leapt, from, latest, budget);
    BackfillIsSound(Gap(feed, p, from), leapt, from, latest, budget, k, L);
  }

  /** A backfill from past the cursor, whose first batch completes, and then any polls, crashes, retries and safe backfills that
      stay past the gap: once the cursor is past every ledger aimed at, the tables are the clean pass if and only if what was
      read makes up for the gap, order by order. */
  lemma SkippedBackfillExactly(feed: seq<ContractEvent>, s: State, from: uint32, latest: uint32, budget: Option<nat>, rest: seq<Action>)
    requires Orderly(feed) && Clean(feed, s) && s.cursor <= from && 0 < from < latest
    requires Survives(Fetch(feed, from, BatchEnd(from, latest)), budget)
    requires StaysPast(rest, from) && SafeRun(feed, Backfill(feed, s, from, latest, budget), rest)
    requires var c := Acts(feed, Backfill(feed, s, from, latest, budget), rest).cursor; latest <= c && Within(rest, c)
    ensures var r := Acts(feed, Backfill(feed, s, from, latest, budget), rest);
            var p, g, e := Before(feed, s.cursor), Before(feed, from), Before(feed, r.cursor);
            && p <= g <= e
            && (forall k :: Lookup(r.tables, k) == Ahead(feed, p, g, e, k))
            && (Clean(feed, r) <==> forall k :: CaughtUp(feed, p, g, e, k))
  {
    hide Before, Clean, CaughtUp, Orderly, Backfill, SafeRun, Gap, Acts, Fetch, RowAt, Ahead, Sound, Lookup, StaysPast, Within;
    var first := Backfill(feed, s, from, latest, budget);
    var r := Acts(feed, first, rest);
    var p, g, e := Before(feed, s.cursor), Before(feed, from), Before(feed, r.cursor);
    BeforeMonotone(feed, s.cursor, from);
    LeapStaysPast(feed, s, from, latest, budget);
    RunInGap(feed, p, from, first, rest);
    BeforeMonotone(feed, from, r.cursor);
    forall k
      ensures Lookup(r.tables, k) == Ahead(feed, p, g, e, k)
      ensures Ahead(feed, p, g, e, k) == RowAt(feed, e, k) <==> CaughtUp(feed, p, g, e, k)
    {
      LeapIsSound(feed, s, from, latest, budget, k, r.cursor);
      GapRowConverges(feed, p, from, first, rest, k);
      AheadIsClean(feed, p, g, e, k);
    }
    CleanMeans(feed, r);
  }

  // ----- Closed rows over a run -----

  lemma {:induction false} ClosedStays(row: Option<Row>, events: seq<ContractEvent>, k: RowKey)
    requires row.Some? && !IsOpen(row) && WellTyped(row, k)
    ensures RowFold(row, events, k) == row
  {
    hide RowWire;
    if events == [] {
    } else {
      ClosedStays(row, events[..|events| - 1], k);
      StepKeepsOrder(row, events[|events| - 1], k);
    }
  }

  predicate Closed(row: Option<Row>, k: RowKey) {
    row.Some? && !IsOpen(row) && (row.value.next.Some? <==> k.dca)
  }

  lemma BatchKeepsClosed(feed: seq<ContractEvent>, s: State, start: uint32, end: uint32, budget: Option<nat>, k: RowKey)
    requires Closed(Lookup(s.tables, k), k)
    ensures Lookup(Batch(feed, s, start, end, budget).tables, k) == Lookup(s.tables, k)
  {
    hide Before, Fold, RowFold, Lookup;
    var events := Fetch(feed, start, end);
    var read := if Survives(events, budget) then events else events[..budget.value];
    FoldIsRowFold(s.tables, read, k);
    ClosedStays(Lookup(s.tables, k), read, k);
  }

  lemma {:induction false} BackfillKeepsClosed(feed: seq<ContractEvent>, s: State, from: uint32, latest: uint32, budget: Option<nat>, k: RowKey)
    requires Closed(Lookup(s.tables, k), k)
    ensures Lookup(Backfill(feed, s, from, latest, budget).tables, k) == Lookup(s.tables, k)
    decreases latest - from
  {
    hide Batch, Fetch, Lookup;
    if from >= latest || from == 0 {
    } else {
      var end := BatchEnd(from, latest);
      BatchKeepsClosed(feed, s, from, end, budget, k);
      if Survives(Fetch(feed, from, end), budget) {
        BackfillKeepsClosed(feed, Batch(feed, s, from, end, budget), end, latest, Left(Fetch(feed, from, end), budget), k);
      }
    }
  }

  /** A closed row stays as it is over every run, safe or not. */
  lemma {:induction false} RunKeepsClosed(feed: seq<ContractEvent>, s: State, actions: seq<Action>, k: RowKey)
    requires Closed(Lookup(s.tables, k), k)
    ensures Lookup(Acts(feed, s, actions).tables, k) == Lookup(s.tables, k)
  {
    hide Batch, Backfill, Lookup;
    if actions == [] {
    } else {
      var front, last := actions[..|actions| - 1], actions[|actions| - 1];
      RunKeepsClosed(feed, s, front, k);
      var before := Acts(feed, s, front);
      match last {
        case Polled(latest, budget) =>
          if 0 < before.cursor < latest {
            BatchKeepsClosed(feed, before, before.cursor, BatchEnd(before.cursor, latest), budget, k);
          }
        case Backfilled(from, latest, budget) => BackfillKeepsClosed(feed, before, from, latest, budget, k);
      }
    }
  }

  // ----- Reading the gap after all -----

  /** A row read ahead of the gap, and then any safe run that starts from the gap's near side or before: it is clean if and only
      if it was not frozen with an old due date. */
  lemma AheadRowRecovers(feed: seq<ContractEvent>, s: State, p: nat, g: nat, x: nat, actions: seq<Action>, k: RowKey)
    requires Orderly(feed) && p <= g <= x <= |feed| && p == Before(feed, s.cursor) && SafeRun(feed, s, actions)
    requires Lookup(s.tables, k) == Ahead(feed, p, g, x, k)
    requires var c := Acts(feed, s, actions).cursor; x <= Before(feed, c) && Within(actions, c)
    ensures var r := Acts(feed, s, actions);
            Lookup(r.tables, k) == RowAt(feed, Before(feed, r.cursor), k) <==> !Frozen(feed, p, g, x, k)
  {
    hide Before, SafeRun, Acts, RowAt, Ahead, Orderly, Lookup, Frozen, Within;
    OrderlyIsConsistent(feed);
    AheadKnown(feed, p, g, x, k);
    var r := Acts(feed, s, actions);
    if Frozen(feed, p, g, x, k) {
      RunKeepsClosed(feed, s, actions, k);
    } else {
      assert Sound(feed, s, k, r.cursor);
      SoundRowConverges(feed, s, actions, k);
    }
  }

  /** What a backfill that dies in its first batch leaves. */
  lemma DiedState(feed: seq<ContractEvent>, s: State, from: uint32, latest: uint32, budget: nat)
    requires 0 < from < latest && !Survives(Fetch(feed, from, BatchEnd(from, latest)), Some(budget))
    ensures var x := Before(feed, from) + budget;
            && x <= Before(feed, BatchEnd(from, latest))
            && Backfill(feed, s, from, latest, Some(budget)) == State(Fold(s.tables, feed[Before(feed, from)..x]), s.cursor)
  {
    hide Before, Fold;
    var end := BatchEnd(from, latest);
    BeforeMonotone(feed, from, end);
    assert Fetch(feed, from, end)[..budget] == feed[Before(feed, from)..Before(feed, from) + budget];
  }

  /** A backfill from past the cursor that dies in its first batch leaves the cursor, so the gap is read after all: over any
      polls, crashes, retries and safe backfills that follow, the tables become clean if and only if no DCA order was frozen
      with an old due date. */
  lemma DiedAheadExactly(feed: seq<ContractEvent>, s: State, from: uint32, latest: uint32, budget: nat, rest: seq<Action>)
    requires Orderly(feed) && Clean(feed, s) && s.cursor <= from && 0 < from < latest
    requires !Survives(Fetch(feed, from, BatchEnd(from, latest)), Some(budget))
    requires SafeRun(feed, Backfill(feed, s, from, latest, Some(budget)), rest)
    requires var c := Acts(feed, Backfill(feed, s, from, latest, Some(budget)), rest).cursor; latest <= c && Within(rest, c)
    ensures var r := Acts(feed, Backfill(feed, s, from, latest, Some(budget)), rest);
            var p, g := Before(feed, s.cursor), Before(feed, from);
            var x := g + budget;
            && p <= g <= x <= |feed|
            && (Clean(feed, r) <==> !exists k :: Frozen(feed, p, g, x, k))
  {
    hide Before, Backfill, Fetch, RowAt, Clean, Frozen, Orderly, Ahead, Fold, Acts, SafeRun, Lookup, Within;
    var end := BatchEnd(from, latest);
    var died := Backfill(feed, s, from, latest, Some(budget));
    var r := Acts(feed, died, rest);
    var p, g := Before(feed, s.cursor), Before(feed, from);
    var x := g + budget;
    BeforeMonotone(feed, s.cursor, from);
    BeforeMonotone(feed, end, r.cursor);
    DiedState(feed, s, from, latest, budget);
    CleanMeans(feed, s);
    forall k
      ensures Lookup(r.tables, k) == RowAt(feed, Before(feed, r.cursor), k) <==> !Frozen(feed, p, g, x, k)
    {
      FoldIsRowFold(s.tables, feed[g..x], k);
      AheadFold(feed, p, g, x, k);
      AheadRowRecovers(feed, died, p, g, x, rest, k);
    }
    CleanMeans(feed, r);
  }

  lemma AheadFold(feed: seq<ContractEvent>, p: nat, s: nat, x: nat, k: RowKey)
    requires p <= |feed| && s <= x <= |feed|
    ensures Ahead(feed, p, s, x, k) == RowFold(RowAt(feed, p, k), feed[s..x], k)
  {
  }

  /** Going back after a leap: tables that are ahead of a gap, a backfill that starts on the gap's near side or before and whose
      first batch completes, and any safe run after it. The tables become clean if and only if no DCA order was frozen. */
  lemma GoneBackExactly(feed: seq<ContractEvent>, s: State, cursor: uint32, g: nat, from: uint32, latest: uint32, budget: Option<nat>,
                        rest: seq<Action>)
    requires Orderly(feed) && Before(feed, cursor) <= g <= Before(feed, s.cursor)
    requires forall k :: Lookup(s.tables, k) == Ahead(feed, Before(feed, cursor), g, Before(feed, s.cursor), k)
    requires 0 < from <= cursor && from < latest && Survives(Fetch(feed, from, BatchEnd(from, latest)), budget)
    requires SafeRun(feed, Backfill(feed, s, from, latest, budget), rest)
    requires var c := Acts(feed, Backfill(feed, s, from, latest, budget), rest).cursor;
             s.cursor <= c && latest <= c && Within(rest, c)
    ensures var r := Acts(feed, Backfill(feed, s, from, latest, budget), rest);
            var p, x := Before(feed, cursor), Before(feed, s.cursor);
            Clean(feed, r) <==> !exists k :: Frozen(feed, p, g, x, k)
  {
    hide Before, RowAt, Clean, Frozen, Orderly, Ahead, Fold, Acts, SafeRun, Lookup, Within, Backfill, Fetch;
    var back := State(s.tables, cursor);
    var a := Backfilled(from, latest, budget);
    var p, x := Before(feed, cursor), Before(feed, s.cursor);
    LeapForgets(feed, s, cursor, from, latest, budget);
    var r := Acts(feed, Backfill(feed, s, from, latest, budget), rest);
    BeforeMonotone(feed, from, cursor);
    BeforeMonotone(feed, s.cursor, r.cursor);
    PrependAct(feed, back, a, rest);
    forall k
      ensures Lookup(r.tables, k) == RowAt(feed, Before(feed, r.cursor), k) <==> !Frozen(feed, p, g, x, k)
    {
      AheadRowRecovers(feed, back, p, g, x, [a] + rest, k);
    }
    CleanMeans(feed, r);
  }

  /** A run may be told with its first action or from after it. */
  lemma {:induction false} PrependAct(feed: seq<ContractEvent>, s: State, a: Action, rest: seq<Action>)
    ensures Acts(feed, s, [a] + rest) == Acts(feed, Act(feed, s, a), rest)
    ensures SafeAction(feed, s, a) && SafeRun(feed, Act(feed, s, a), rest) ==> SafeRun(feed, s, [a] + rest)
    ensures forall L :: a.latest <= L && Within(rest, L) ==> Within([a] + rest, L)
    decreases |rest|
  {
    hide Act, SafeAction;
    if rest == [] {
      assert [a] + rest == [a];
      assert [a][..0] == [];
    } else {
      var front := rest[..|rest| - 1];
      PrependAct(feed, s, a, front);
      assert ([a] + rest)[..|[a] + rest| - 1] == [a] + front;
    }
  }

  // ----- A backfill below the cursor that dies -----

  /** A backfill that dies in its first batch short of the cursor, and then any polls, crashes, retries and safe backfills that
      stay past the cursor: the orders open there that the replay took back miss what lies between, as after a gap, and the
      tables become clean if and only if each of them is caught up by what was read since. */
  lemma DiedShortExactly(feed: seq<ContractEvent>, s: State, from: uint32, latest: uint32, budget: nat, rest: seq<Action>)
    requires Orderly(feed) && Clean(feed, s) && 0 < from <= s.cursor && from < latest
    requires !Survives(Fetch(feed, from, BatchEnd(from, latest)), Some(budget))
    requires Before(feed, from) + budget <= Before(feed, s.cursor)
    requires StaysPast(rest, s.cursor) && SafeRun(feed, Backfill(feed, s, from, latest, Some(budget)), rest)
    requires var c := Acts(feed, Backfill(feed, s, from, latest, Some(budget)), rest).cursor; Within(rest, c)
    ensures var r := Acts(feed, Backfill(feed, s, from, latest, Some(budget)), rest);
            var p, g, e := Before(feed, s.cursor), Before(feed, from), Before(feed, r.cursor);
            var x := g + budget;
            && g <= x <= p <= e
            && (Clean(feed, r) <==>
                forall k :: IsOpen(RowAt(feed, p, k)) && Regress.UpdatedIn(feed, g, x, k) ==> CaughtUp(feed, x, p, e, k))
  {
    hide Before, Backfill, Fetch, RowAt, Clean, CaughtUp, Orderly, Ahead, Fold, Acts, SafeRun, Lookup, Within, IsOpen, Regress.UpdatedIn,
         StaysPast, Gap;
    var died := Backfill(feed, s, from, latest, Some(budget));
    var r := Acts(feed, died, rest);
    var p, g, e := Before(feed, s.cursor), Before(feed, from), Before(feed, r.cursor);
    var x := g + budget;
    OrderlyIsConsistent(feed);
    DiedState(feed, s, from, latest, budget);
    RunInGap(feed, x, s.cursor, died, rest);
    BeforeMonotone(feed, s.cursor, r.cursor);
    CleanMeans(feed, s);
    forall k
      ensures Lookup(r.tables, k) == RowAt(feed, e, k) <==>
              (IsOpen(RowAt(feed, p, k)) && Regress.UpdatedIn(feed, g, x, k) ==> CaughtUp(feed, x, p, e, k))
    {
      FoldIsRowFold(s.tables, feed[g..x], k);
      Regress.InterruptedRow(feed, p, g, x, k);
      if IsOpen(RowAt(feed, p, k)) && Regress.UpdatedIn(feed, g, x, k) {
        SoundAtGap(feed, x, s.cursor, died, k, r.cursor);
        GapRowConverges(feed, x, s.cursor, died, rest, k);
        AheadIsClean(feed, x, p, e, k);
      } else {
        assert Sound(feed, died, k, r.cursor);
        SoundRowConverges(feed, died, rest, k);
      }
    }
    CleanMeans(feed, r);
  }

  // ----- A concrete case -----

  /** An order is created, and the indexer has read that much; then it is filled twice. A backfill from past the fills takes
      the cursor with it, and however often the indexer polls afterwards, the fills never reach the tables. */
  lemma SkippedFillsAreLost(polls: seq<Action>)
    requires forall i :: 0 <= i < |polls| ==> polls[i].Polled?
    ensures var feed := Regress.TwoFills();
            var s := State(CleanPass(feed, 1), 2);
            var r := Acts(feed, Backfill(feed, s, 4, 10, None), polls);
            && Clean(feed, s) && r.cursor >= 4
            && r.tables == s.tables && !Clean(feed, r)
  {
    hide Regress.TwoFills, Fold, RowFold, RowAt, Decimal.ToString, CleanPass, Backfill, Fetch, Before, Acts;
    var feed := Regress.TwoFills();
    var s := State(CleanPass(feed, 1), 2);
    Regress.TwoFillsPositions();
    Regress.TwoFillsRows();
    LeapFindsNothing(s);
    Regress.PollsFindNothing(Backfill(feed, s, 4, 10, None), polls);
    CleanRow(feed, 1, Regress.K);
    CleanRow(feed, 3, Regress.K);
    TextIsDigits(100);
    TextIsDigits(30);
    Decimal.DigitsInjective(100, 30);
  }

  lemma LeapFindsNothing(s: State)
    ensures Backfill(Regress.TwoFills(), s, 4, 10, None) == State(s.tables, 10)
  {
    hide Regress.TwoFills, Before;
    Regress.TwoFillsPositions();
    assert Fetch(Regress.TwoFills(), 4, 10) == [];
    NothingRead(s.tables);
  }

  lemma NothingRead(t: Tables)
    ensures Fold(t, []) == t
  {
  }

  lemma TextIsDigits(n: nat)
    ensures Decimal.ToString(n) == Decimal.Digits(n)
  {
  }
}
