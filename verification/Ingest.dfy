// The indexer's cursor protocol: batches, crashes, retries and backfills over one event feed.

module Ingest {
  import opened Base
  import opened Index
  import opened OrderEvents

  const MAX_SCAN: uint32 := 10_000

  /** What survives a crash: the order tables and the cursor row. */
  datatype State = State(tables: Tables, cursor: uint32)

  /** Ledger order, in which the RPC serves events. */
  ghost predicate Sorted(feed: seq<ContractEvent>) {
    forall i, j :: 0 <= i < j < |feed| ==> feed[i].ledger <= feed[j].ledger
  }

  /** How many events of the feed lie before ledger L. */
  function Before(feed: seq<ContractEvent>, L: int): (p: nat)
    ensures p <= |feed|
    ensures forall i :: 0 <= i < p ==> feed[i].ledger < L
    ensures p < |feed| ==> feed[p].ledger >= L
    ensures p == |feed| || L <= feed[p].ledger
  {
    if feed == [] then 0
    else if feed[0].ledger >= L then 0
    else
      var p := 1 + Before(feed[1..], L);
      assert forall i :: 0 < i < p ==> feed[i] == feed[1..][i - 1];
      assert p < |feed| ==> feed[p] == feed[1..][p - 1];
      p
  }

  lemma BeforeMonotone(feed: seq<ContractEvent>, L: int, M: int)
    requires L <= M
    ensures Before(feed, L) <= Before(feed, M)
  {
    var p := Before(feed, M);
    assert p < |feed| ==> feed[p].ledger >= M;
  }

  /** The events of ledgers start to end - 1. */
  function Fetch(feed: seq<ContractEvent>, start: uint32, end: uint32): seq<ContractEvent> {
    if start <= end then
      BeforeMonotone(feed, start, end);
      feed[Before(feed, start)..Before(feed, end)]
    else []
  }

  /** On a sorted feed a fetch is exactly the events whose ledger is in range, in order. */
  lemma FetchIsRange(feed: seq<ContractEvent>, start: uint32, end: uint32, i: nat)
    requires Sorted(feed) && i < |feed| && start <= end
    ensures start <= feed[i].ledger < end <==> Before(feed, start) <= i < Before(feed, end)
  {
    if Before(feed, end) <= i {
      assert feed[Before(feed, end)].ledger <= feed[i].ledger;
    }
    if Before(feed, start) <= i {
      assert feed[Before(feed, start)].ledger <= feed[i].ledger;
    }
  }

  // ----- The protocol -----

  /** A batch either completes, and only then moves the cursor, or stops after some of its events. `budget` is how many
      events can still be applied before the process dies; with none, it does not die. */
  function Batch(feed: seq<ContractEvent>, s: State, start: uint32, end: uint32, budget: Option<nat>): State {
    var events := Fetch(feed, start, end);
    if Survives(events, budget) then State(Fold(s.tables, events), end)
    else State(Fold(s.tables, events[..budget.value]), s.cursor)
  }

  predicate Survives(events: seq<ContractEvent>, budget: Option<nat>)
    ensures !Survives(events, budget) ==> budget.Some? && budget.value <= |events|
  {
    budget.None? || budget.value > |events|
  }

  function Left(events: seq<ContractEvent>, budget: Option<nat>): Option<nat>
    requires Survives(events, budget)
  {
    if budget.None? then None else Some(budget.value - |events|)
  }

  function BatchEnd(start: uint32, latest: uint32): uint32 {
    var end := SaturatingAdd32(start, MAX_SCAN);
    if end < latest then end else latest
  }

  /** One turn of the polling loop. The RPC refuses ledger zero. */
  function Poll(feed: seq<ContractEvent>, s: State, latest: uint32, budget: Option<nat>): State {
    if s.cursor >= latest || s.cursor == 0 then s else Batch(feed, s, s.cursor, BatchEnd(s.cursor, latest), budget)
  }

  /** A backfill: batches from a given ledger, whatever the cursor says. */
  function Backfill(feed: seq<ContractEvent>, s: State, from: uint32, latest: uint32, budget: Option<nat>): State
    decreases latest - from
  {
    if from >= latest || from == 0 then s
    else
      var end := BatchEnd(from, latest);
      var s' := Batch(feed, s, from, end, budget);
      if Survives(Fetch(feed, from, end), budget) then Backfill(feed, s', end, latest, Left(Fetch(feed, from, end), budget))
      else s'
  }

  datatype Action = Polled(latest: uint32, budget: Option<nat>) | Backfilled(from: uint32, latest: uint32, budget: Option<nat>)

  function Act(feed: seq<ContractEvent>, s: State, a: Action): State {
    match a
    case Polled(latest, budget) => Poll(feed, s, latest, budget)
    case Backfilled(from, latest, budget) => Backfill(feed, s, from, latest, budget)
  }

  function Acts(feed: seq<ContractEvent>, s: State, actions: seq<Action>): State {
    if actions == [] then s else Act(feed, Acts(feed, s, actions[..|actions| - 1]), actions[|actions| - 1])
  }

  /** One pass over the first p events, without interruption. */
  function CleanPass(feed: seq<ContractEvent>, p: nat): Tables
    requires p <= |feed|
  {
    Fold(EMPTY, feed[..p])
  }

  lemma CleanRow(feed: seq<ContractEvent>, p: nat, k: RowKey)
    requires p <= |feed|
    ensures Lookup(CleanPass(feed, p), k) == RowAt(feed, p, k)
  {
    FoldIsRowFold(EMPTY, feed[..p], k);
  }

  // ----- The invariant, row by row -----

  /** The row is as of some event between the cursor and the furthest event ever applied. */
  ghost predicate Between(feed: seq<ContractEvent>, row: Option<Row>, k: RowKey, p: nat, h: nat) {
    p <= h <= |feed| && exists m :: p <= m <= h && RowAt(feed, m, k) == row
  }

  lemma CleanBetween(feed: seq<ContractEvent>, p: nat, h: nat, k: RowKey)
    requires p <= h <= |feed|
    ensures Between(feed, Lookup(CleanPass(feed, p), k), k, p, h)
  {
    hide RowAt, CleanPass;
    CleanRow(feed, p, k);
  }

  lemma UpToDate(feed: seq<ContractEvent>, row: Option<Row>, k: RowKey, p: nat)
    requires Between(feed, row, k, p, p)
    ensures row == RowAt(feed, p, k)
  {
    hide RowAt;
  }

  function Max(a: nat, b: nat): nat {
    if a < b then b else a
  }

  /** Applying events s to e, from at or before the cursor's position p, leaves the row at e or beyond; and at p or beyond,
      when e is not short of p. */
  lemma ReplayBetween(feed: seq<ContractEvent>, row: Option<Row>, k: RowKey, p: nat, h: nat, s: nat, e: nat)
    requires Consistent(feed) && Between(feed, row, k, p, h) && s <= p && s <= e <= |feed|
    ensures Between(feed, RowFold(row, feed[s..e], k), k, e, Max(h, e))
    ensures p <= e ==> Between(feed, RowFold(row, feed[s..e], k), k, p, Max(h, e))
  {
    hide RowAt, RowFold, Consistent;
    var m :| p <= m <= h && RowAt(feed, m, k) == row;
    ReplayRow(feed, m, s, e, k);
  }

  /** The protocol's invariant for one row: it is not behind the cursor, and not ahead of ledger L. */
  ghost predicate Sound(feed: seq<ContractEvent>, s: State, k: RowKey, L: int) {
    Between(feed, Lookup(s.tables, k), k, Before(feed, s.cursor), Before(feed, L))
  }

  /** A batch is safe when it starts at or before the cursor and, if it dies, does not die short of the cursor. */
  ghost predicate SafeBatch(feed: seq<ContractEvent>, s: State, start: uint32, end: uint32, budget: Option<nat>) {
    && Before(feed, start) <= Before(feed, s.cursor)
    && (Survives(Fetch(feed, start, end), budget) || Before(feed, start) + budget.value >= Before(feed, s.cursor))
  }

  lemma SafeBatchIsSound(feed: seq<ContractEvent>, s: State, start: uint32, end: uint32, budget: Option<nat>, k: RowKey, L: int)
    requires Consistent(feed) && Sound(feed, s, k, L) && start <= end <= L && SafeBatch(feed, s, start, end, budget)
    ensures Sound(feed, Batch(feed, s, start, end, budget), k, L)
  {
    hide Consistent, Between, Fold, Before, RowFold, Lookup;
    var row := Lookup(s.tables, k);
    var p, h, from, to := Before(feed, s.cursor), Before(feed, L), Before(feed, start), Before(feed, end);
    BeforeMonotone(feed, start, end);
    BeforeMonotone(feed, end, L);
    var events := Fetch(feed, start, end);
    if Survives(events, budget) {
      ReplayBetween(feed, row, k, p, h, from, to);
      FoldIsRowFold(s.tables, events, k);
    } else {
      var stop := from + budget.value;
      assert events[..budget.value] == feed[from..stop];
      ReplayBetween(feed, row, k, p, h, from, stop);
      FoldIsRowFold(s.tables, feed[from..stop], k);
    }
  }

  /** Polling is always safe. A backfill is safe when its first batch is: once that one completes, the cursor follows it. */
  ghost predicate SafeAction(feed: seq<ContractEvent>, s: State, a: Action) {
    match a
    case Polled(_, _) => true
    case Backfilled(from, latest, budget) =>
      from >= latest || from == 0 || SafeBatch(feed, s, from, BatchEnd(from, latest), budget)
  }

  lemma {:induction false} BackfillIsSound(feed: seq<ContractEvent>, s: State, from: uint32, latest: uint32, budget: Option<nat>,
                                           k: RowKey, L: int)
    requires Consistent(feed) && Sound(feed, s, k, L) && latest <= L
    requires SafeAction(feed, s, Backfilled(from, latest, budget))
    ensures Sound(feed, Backfill(feed, s, from, latest, budget), k, L)
    decreases latest - from
  {
    hide Consistent, Sound, Before, Fetch, Fold;
    if from >= latest || from == 0 {
    } else {
      var end := BatchEnd(from, latest);
      SafeBatchIsSound(feed, s, from, end, budget, k, L);
      if Survives(Fetch(feed, from, end), budget) {
        BackfillIsSound(feed, Batch(feed, s, from, end, budget), end, latest, Left(Fetch(feed, from, end), budget), k, L);
      }
    }
  }

  lemma ActionIsSound(feed: seq<ContractEvent>, s: State, a: Action, k: RowKey, L: int)
    requires Consistent(feed) && Sound(feed, s, k, L) && a.latest <= L && SafeAction(feed, s, a)
    ensures Sound(feed, Act(feed, s, a), k, L)
  {
    hide Consistent, Sound, Before, Fetch, Backfill, Batch;
    match a {
      case Polled(latest, budget) =>
        if 0 < s.cursor < latest {
          SafeBatchIsSound(feed, s, s.cursor, BatchEnd(s.cursor, latest), budget, k, L);
        }
      case Backfilled(from, latest, budget) => BackfillIsSound(feed, s, from, latest, budget, k, L);
    }
  }

  ghost predicate SafeRun(feed: seq<ContractEvent>, s: State, actions: seq<Action>) {
    actions == [] ||
    (SafeRun(feed, s, actions[..|actions| - 1])
     && SafeAction(feed, Acts(feed, s, actions[..|actions| - 1]), actions[|actions| - 1]))
  }

  /** No action aims past ledger L. */
  ghost predicate Within(actions: seq<Action>, L: int) {
    forall i :: 0 <= i < |actions| ==> actions[i].latest <= L
  }

  lemma {:induction false} RunIsSound(feed: seq<ContractEvent>, s: State, actions: seq<Action>, k: RowKey, L: int)
    requires Consistent(feed) && Sound(feed, s, k, L) && SafeRun(feed, s, actions) && Within(actions, L)
    ensures Sound(feed, Acts(feed, s, actions), k, L)
  {
    hide Consistent, Sound, SafeAction, Act;
    if actions == [] {
    } else {
      RunIsSound(feed, s, actions[..|actions| - 1], k, L);
      ActionIsSound(feed, Acts(feed, s, actions[..|actions| - 1]), actions[|actions| - 1], k, L);
    }
  }

  /** A row that is sound before a safe run is up to date once the cursor is past every ledger aimed at. */
  lemma SoundRowConverges(feed: seq<ContractEvent>, s: State, actions: seq<Action>, k: RowKey)
    requires Consistent(feed) && SafeRun(feed, s, actions)
    requires var c := Acts(feed, s, actions).cursor; Sound(feed, s, k, c) && Within(actions, c)
    ensures var r := Acts(feed, s, actions); Lookup(r.tables, k) == RowAt(feed, Before(feed, r.cursor), k)
  {
    hide Consistent, SafeRun, Before, RowAt, Between, Lookup;
    var r := Acts(feed, s, actions);
    RunIsSound(feed, s, actions, k, r.cursor);
    UpToDate(feed, Lookup(r.tables, k), k, Before(feed, r.cursor));
  }

  // ----- Convergence -----

  /** Tables that are one clean pass up to the cursor. */
  ghost predicate Clean(feed: seq<ContractEvent>, s: State) {
    s.tables == CleanPass(feed, Before(feed, s.cursor))
  }

  /** Clean tables have every row as of the cursor. */
  lemma CleanMeans(feed: seq<ContractEvent>, s: State)
    ensures Clean(feed, s) <==> forall k :: Lookup(s.tables, k) == RowAt(feed, Before(feed, s.cursor), k)
  {
    hide RowAt, CleanPass, Lookup;
    var p := Before(feed, s.cursor);
    forall k ensures Lookup(CleanPass(feed, p), k) == RowAt(feed, p, k) {
      CleanRow(feed, p, k);
    }
    if forall k :: Lookup(s.tables, k) == RowAt(feed, p, k) {
      SameRowsSameTables(s.tables, CleanPass(feed, p));
    }
  }

  lemma CleanIsSound(feed: seq<ContractEvent>, s: State, k: RowKey, L: int)
    requires Clean(feed, s) && s.cursor <= L
    ensures Sound(feed, s, k, L)
  {
    hide Before, CleanPass, Between;
    BeforeMonotone(feed, s.cursor, L);
    CleanBetween(feed, Before(feed, s.cursor), Before(feed, L), k);
  }

  /** Replay convergence: from a clean state, any polls, crashes, retries and safe backfills, once the cursor is past every
      ledger they aimed at, leave exactly the tables of one clean pass. */
  lemma Convergence(feed: seq<ContractEvent>, s: State, actions: seq<Action>)
    requires Consistent(feed) && Clean(feed, s) && SafeRun(feed, s, actions)
    requires var c := Acts(feed, s, actions).cursor; s.cursor <= c && Within(actions, c)
    ensures Clean(feed, Acts(feed, s, actions))
  {
    hide Consistent, SafeRun, Clean, Before, RowAt, Sound, Lookup, Within;
    var r := Acts(feed, s, actions);
    forall k ensures Lookup(r.tables, k) == RowAt(feed, Before(feed, r.cursor), k) {
      CleanIsSound(feed, s, k, r.cursor);
      SoundRowConverges(feed, s, actions, k);
    }
    CleanMeans(feed, r);
  }

  /** n undisturbed turns of the polling loop. */
  function Polls(feed: seq<ContractEvent>, s: State, latest: uint32, n: nat): State {
    if n == 0 then s else Poll(feed, Polls(feed, s, latest, n - 1), latest, None)
  }

  /** An undisturbed turn below the latest ledger reads on by 10,000 ledgers, or to the latest one. */
  lemma PollReaches(feed: seq<ContractEvent>, s: State, latest: uint32)
    requires 0 < s.cursor < latest
    ensures Poll(feed, s, latest, None).cursor == if s.cursor + 10_000 < latest then s.cursor + 10_000 else latest
    ensures var end := Poll(feed, s, latest, None).cursor;
            Poll(feed, s, latest, None).tables == Fold(s.tables, Fetch(feed, s.cursor, end))
  {
    hide Fold, Fetch;
  }

  lemma {:induction false} PollsAdvance(feed: seq<ContractEvent>, s: State, latest: uint32, n: nat)
    requires 0 < s.cursor <= latest
    ensures s.cursor <= Polls(feed, s, latest, n).cursor <= latest
    ensures Polls(feed, s, latest, n).cursor == latest || Polls(feed, s, latest, n).cursor >= s.cursor + n * 10_000
  {
    hide Fetch, Fold;
    if n == 0 {
    } else {
      PollsAdvance(feed, s, latest, n - 1);
    }
  }

  lemma {:induction false} PollsAreSound(feed: seq<ContractEvent>, s: State, latest: uint32, n: nat, k: RowKey)
    requires Consistent(feed) && Sound(feed, s, k, latest)
    ensures Sound(feed, Polls(feed, s, latest, n), k, latest)
  {
    hide Consistent, Sound, Poll;
    if n == 0 {
    } else {
      PollsAreSound(feed, s, latest, n - 1, k);
      ActionIsSound(feed, Polls(feed, s, latest, n - 1), Polled(latest, None), k, latest);
    }
  }

  /** After any disturbed but safe run below ledger L, enough undisturbed polls give the clean pass to L. */
  lemma PollingRecovers(feed: seq<ContractEvent>, s: State, actions: seq<Action>, L: uint32, n: nat)
    requires Consistent(feed) && Clean(feed, s) && SafeRun(feed, s, actions)
    requires s.cursor <= L && Within(actions, L)
    requires var c := Acts(feed, s, actions).cursor; 0 < c <= L && c + n * 10_000 >= L
    ensures var r := Polls(feed, Acts(feed, s, actions), L, n);
            r == State(CleanPass(feed, Before(feed, L)), L)
  {
    hide Consistent, SafeRun, Before, RowAt, Sound, Lookup, Within, CleanPass;
    var s' := Acts(feed, s, actions);
    var r := Polls(feed, s', L, n);
    PollsAdvance(feed, s', L, n);
    forall k ensures Lookup(r.tables, k) == RowAt(feed, Before(feed, L), k) {
      CleanIsSound(feed, s, k, L);
      RunIsSound(feed, s, actions, k, L);
      PollsAreSound(feed, s', L, n, k);
      SoundHere(feed, r, k);
    }
    CleanMeans(feed, r);
  }

  lemma SoundHere(feed: seq<ContractEvent>, r: State, k: RowKey)
    requires Sound(feed, r, k, r.cursor)
    ensures Lookup(r.tables, k) == RowAt(feed, Before(feed, r.cursor), k)
  {
    hide RowAt, Between, Before, Lookup;
    UpToDate(feed, Lookup(r.tables, k), k, Before(feed, r.cursor));
  }
}
