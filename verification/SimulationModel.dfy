// The bounded book of pending simulation statistics: merging, batching and restoring as functions.

module SimulationModel {
  import opened Arith
  import opened Base

  const MAX_PENDING := 4096
  const BATCH_SIZE := 128

  /** A dimension, by its place in the order the pending map iterates in. */
  type Dimension = int

  datatype Outcome = Ready | FeeRejected | EconomicFailure | StructuralFailure | PrepareError

  datatype Aggregate = Aggregate(attempts: uint64, ready: uint64, feeRejected: uint64, economicFailures: uint64,
                                 structuralFailures: uint64, prepareErrors: uint64, outputSamples: uint64,
                                 optimisticSamples: uint64, gapSum: int64, gapMin: Option<int64>, gapMax: Option<int64>,
                                 missingPoolAge: uint64, maxPoolAgeMs: Option<uint64>, maxSimulationMs: uint64, lastSeen: int64)

  function SatAddU64(a: uint64, b: uint64): uint64 {
    if a + b > U64_MAX then U64_MAX else a + b
  }

  function SatAddI64(a: int64, b: int64): int64 {
    if a + b > I64_MAX then I64_MAX else if a + b < -I64_MAX - 1 then -I64_MAX - 1 else a + b
  }

  function MinOf(a: Option<int64>, b: Option<int64>): Option<int64> {
    if a.None? then b else if b.None? then a else Some(if b.value < a.value then b.value else a.value)
  }

  function MaxOf(a: Option<int64>, b: Option<int64>): Option<int64> {
    if a.None? then b else if b.None? then a else Some(if b.value > a.value then b.value else a.value)
  }

  function MaxAge(a: Option<uint64>, b: Option<uint64>): Option<uint64> {
    if a.None? then b else if b.None? then a else Some(if b.value > a.value then b.value else a.value)
  }

  function Merge(a: Aggregate, b: Aggregate): Aggregate {
    Aggregate(SatAddU64(a.attempts, b.attempts), SatAddU64(a.ready, b.ready), SatAddU64(a.feeRejected, b.feeRejected),
              SatAddU64(a.economicFailures, b.economicFailures), SatAddU64(a.structuralFailures, b.structuralFailures),
              SatAddU64(a.prepareErrors, b.prepareErrors), SatAddU64(a.outputSamples, b.outputSamples),
              SatAddU64(a.optimisticSamples, b.optimisticSamples), SatAddI64(a.gapSum, b.gapSum), MinOf(a.gapMin, b.gapMin),
              MaxOf(a.gapMax, b.gapMax), SatAddU64(a.missingPoolAge, b.missingPoolAge), MaxAge(a.maxPoolAgeMs, b.maxPoolAgeMs),
              if b.maxSimulationMs > a.maxSimulationMs then b.maxSimulationMs else a.maxSimulationMs,
              if b.lastSeen > a.lastSeen then b.lastSeen else a.lastSeen)
  }

  function Clamp(x: int, low: int, high: int): int
    requires low <= high
  {
    if x < low then low else if x > high then high else x
  }

  /** One simulation. The gap is present when there was an output to compare with the quote. */
  datatype Simulation = Simulation(outcome: Outcome, gap: Option<int64>, elapsedMs: uint64, poolAgeMs: Option<uint64>,
                                   ageMissing: bool, now: int64)

  /** The row of one simulation. */
  function NewRow(sim: Simulation): Aggregate {
    var g := if sim.gap.Some? then Some(Clamp(sim.gap.value, -1_000_000, 1_000_000)) else None;
    var o := sim.outcome;
    Aggregate(1, if o.Ready? then 1 else 0, if o.FeeRejected? then 1 else 0, if o.EconomicFailure? then 1 else 0,
              if o.StructuralFailure? then 1 else 0, if o.PrepareError? then 1 else 0,
              if g.Some? then 1 else 0, if g.Some? && g.value > 0 then 1 else 0, if g.Some? then g.value else 0, g, g,
              if sim.ageMissing then 1 else 0,
              if sim.poolAgeMs.Some? then Some(if sim.poolAgeMs.value > I64_MAX then I64_MAX else sim.poolAgeMs.value) else None,
              if sim.elapsedMs > I64_MAX then I64_MAX else sim.elapsedMs, sim.now)
  }

  // ----- What a row means -----

  /** Every attempt has one outcome, and the gap statistics are those of that many samples. */
  ghost predicate Sound(a: Aggregate) {
    && a.ready + a.feeRejected + a.economicFailures + a.structuralFailures + a.prepareErrors == a.attempts
    && a.optimisticSamples <= a.outputSamples <= a.attempts && a.missingPoolAge <= a.attempts
    && (a.gapMin.Some? <==> a.outputSamples > 0) && (a.gapMax.Some? <==> a.outputSamples > 0)
    && (a.outputSamples == 0 ==> a.gapSum == 0)
    && (a.outputSamples > 0 ==>
          && -1_000_000 <= a.gapMin.value <= a.gapMax.value <= 1_000_000
          && a.gapMin.value * a.outputSamples <= a.gapSum <= a.gapMax.value * a.outputSamples)
  }

  /** So many attempts cannot saturate a gap sum, nor any other counter. */
  predicate Exact(attempts: nat) {
    attempts * 1_000_000 <= I64_MAX
  }

  lemma NewRowIsSound(sim: Simulation)
    ensures Sound(NewRow(sim)) && NewRow(sim).attempts == 1
  {
  }

  lemma ScaledLe(a: int, b: int, n: nat)
    requires a <= b
    ensures a * n <= b * n
  {
  }

  lemma GapSumBound(a: Aggregate)
    requires Sound(a)
    ensures -1_000_000 * a.attempts <= a.gapSum <= 1_000_000 * a.attempts
  {
    if a.outputSamples > 0 {
      ScaledLe(-1_000_000, a.gapMin.value, a.outputSamples);
      ScaledLe(a.gapMax.value, 1_000_000, a.outputSamples);
    }
  }

  lemma SumsAdd(low: int, m: int, n: int, j: nat, k: nat)
    requires low <= m && low <= n
    ensures low * (j + k) <= m * j + n * k
  {
    ScaledLe(low, m, j);
    ScaledLe(low, n, k);
    Distribute(j, k, low);
  }

  lemma Negated(x: int, n: nat)
    ensures -x * n == -(x * n)
  {
  }

  lemma GapSumsAdd(a: Aggregate, b: Aggregate)
    requires Sound(a) && Sound(b) && a.outputSamples > 0 && b.outputSamples > 0
    ensures var low, high := MinOf(a.gapMin, b.gapMin).value, MaxOf(a.gapMax, b.gapMax).value;
            low * (a.outputSamples + b.outputSamples) <= a.gapSum + b.gapSum <= high * (a.outputSamples + b.outputSamples)
  {
    var low, high := MinOf(a.gapMin, b.gapMin).value, MaxOf(a.gapMax, b.gapMax).value;
    SumsAdd(low, a.gapMin.value, b.gapMin.value, a.outputSamples, b.outputSamples);
    SumsAdd(-high, -a.gapMax.value, -b.gapMax.value, a.outputSamples, b.outputSamples);
    Negated(high, a.outputSamples + b.outputSamples);
    Negated(a.gapMax.value, a.outputSamples);
    Negated(b.gapMax.value, b.outputSamples);
  }

  /** Below saturation a merge is the row of both sets of attempts. */
  lemma MergeIsSound(a: Aggregate, b: Aggregate)
    requires Sound(a) && Sound(b) && Exact(a.attempts + b.attempts)
    ensures Sound(Merge(a, b)) && Merge(a, b).attempts == a.attempts + b.attempts
    ensures Merge(a, b).gapSum == a.gapSum + b.gapSum
  {
    GapSumBound(a);
    GapSumBound(b);
    if a.outputSamples > 0 && b.outputSamples > 0 {
      GapSumsAdd(a, b);
    }
  }

  // ----- The book -----

  datatype Book = Book(pending: map<Dimension, Aggregate>, cursor: Option<Dimension>, dropped: nat)

  /** A row put under its key: merged, inserted, or dropped when the book is full and the key is new. */
  function Put(b: Book, key: Dimension, row: Aggregate, lost: nat): Book {
    if key in b.pending then b.(pending := b.pending[key := Merge(b.pending[key], row)])
    else if |b.pending| < MAX_PENDING then b.(pending := b.pending[key := row])
    else b.(dropped := b.dropped + lost)
  }

  /** One simulation recorded under each of its dimensions; a dropped dimension counts one membership. */
  function Record(b: Book, keys: seq<Dimension>, row: Aggregate): Book {
    if keys == [] then b else Put(Record(b, keys[..|keys| - 1], row), keys[|keys| - 1], row, 1)
  }

  /** A failed batch put back; a dropped row counts its attempts. */
  function Restore(b: Book, batch: seq<(Dimension, Aggregate)>): Book {
    if batch == [] then b
    else
      var last := batch[|batch| - 1];
      Put(Restore(b, batch[..|batch| - 1]), last.0, last.1, last.1.attempts)
  }

  ghost predicate Increasing(s: seq<Dimension>) {
    forall i, j :: 0 <= i < j < |s| ==> s[i] < s[j]
  }

  predicate IsLeast(keys: set<Dimension>, k: Dimension) {
    k in keys && forall x :: x in keys ==> k <= x
  }

  lemma NoneMeansEmpty(keys: set<Dimension>)
    ensures (forall x :: x !in keys) ==> keys == {}
  {
    if forall x :: x !in keys {
      assert keys == {};
    }
  }

  lemma HasLeast(keys: set<Dimension>) returns (k: Dimension)
    requires keys != {}
    ensures IsLeast(keys, k)
    decreases |keys|
  {
    NoneMeansEmpty(keys);
    k :| k in keys;
    var rest := keys - {k};
    assert keys == rest + {k};
    if rest != {} {
      var m := HasLeast(rest);
      k := if m < k then m else k;
    }
  }

  lemma LeastExists(keys: set<Dimension>)
    requires keys != {}
    ensures exists k :: k in keys && IsLeast(keys, k)
  {
    var k := HasLeast(keys);
  }

  function Least(keys: set<Dimension>): (k: Dimension)
    requires keys != {}
    ensures IsLeast(keys, k)
  {
    LeastExists(keys);
    var k :| k in keys && IsLeast(keys, k);
    k
  }

  /** The keys in order, as the map iterates. */
  function InOrder(keys: set<Dimension>): seq<Dimension> {
    if keys == {} then [] else [Least(keys)] + InOrder(keys - {Least(keys)})
  }

  function FirstOf(s: seq<Dimension>, n: nat): seq<Dimension> {
    if |s| <= n then s else s[..n]
  }

  function After(keys: set<Dimension>, last: Dimension): set<Dimension> {
    set k | k in keys && k > last
  }

  function UpTo(keys: set<Dimension>, last: Dimension): set<Dimension> {
    set k | k in keys && k <= last
  }

  /** The keys of the next batch: up to 128 after the cursor, filled up from the start to the cursor. */
  function BatchKeys(keys: set<Dimension>, cursor: Option<Dimension>): seq<Dimension> {
    match cursor
    case None => FirstOf(InOrder(keys), BATCH_SIZE)
    case Some(last) =>
      var first := FirstOf(InOrder(After(keys, last)), BATCH_SIZE);
      first + FirstOf(InOrder(UpTo(keys, last)), BATCH_SIZE - |first|)
  }

  function NextCursor(keys: set<Dimension>, cursor: Option<Dimension>): Option<Dimension> {
    var batch := BatchKeys(keys, cursor);
    if batch == [] then cursor else Some(batch[|batch| - 1])
  }

  /** All keys from the one after the cursor round to the cursor. */
  ghost function Rotation(keys: set<Dimension>, cursor: Option<Dimension>): seq<Dimension> {
    match cursor
    case None => InOrder(keys)
    case Some(last) => InOrder(After(keys, last)) + InOrder(UpTo(keys, last))
  }

  // ----- Order and rotation -----

  function Elements(s: seq<Dimension>): set<Dimension> {
    set k | k in s
  }

  lemma {:induction false} InOrderShape(keys: set<Dimension>)
    ensures Increasing(InOrder(keys)) && Elements(InOrder(keys)) == keys && |InOrder(keys)| == |keys|
    decreases |keys|
  {
    if keys == {} {
    } else {
      var k := Least(keys);
      InOrderShape(keys - {k});
      PrependLeast(k, InOrder(keys - {k}));
      assert keys == {k} + (keys - {k});
    }
  }

  lemma PrependLeast(k: Dimension, rest: seq<Dimension>)
    requires Increasing(rest) && forall x :: x in Elements(rest) ==> k < x
    ensures Increasing([k] + rest) && Elements([k] + rest) == {k} + Elements(rest)
  {
    assert forall i :: 0 <= i < |rest| ==> rest[i] in Elements(rest);
  }

  /** There is only one way to list a set in order. */
  lemma {:induction false} OneOrder(s: seq<Dimension>)
    requires Increasing(s)
    ensures InOrder(Elements(s)) == s
  {
    if s == [] {
      assert Elements(s) == {};
    } else {
      LeastOfIncreasing(s);
      OneOrder(s[1..]);
    }
  }

  lemma LeastOfIncreasing(s: seq<Dimension>)
    requires s != [] && Increasing(s)
    ensures Elements(s) != {} && Least(Elements(s)) == s[0] && Elements(s) - {s[0]} == Elements(s[1..])
  {
    assert s[0] in Elements(s);
    assert forall k :: k in Elements(s) ==> s[0] <= k;
    assert forall i :: 0 < i < |s| ==> s[i] == s[1..][i - 1];
  }

  lemma FirstOfBoth(a: seq<Dimension>, b: seq<Dimension>, n: nat)
    ensures var first := FirstOf(a, n); |first| <= n && first + FirstOf(b, n - |first|) == FirstOf(a + b, n)
  {
    if |a| <= n < |a + b| {
      assert (a + b)[..n] == a + b[..n - |a|];
    }
  }

  lemma BatchIsRotationPrefix(keys: set<Dimension>, cursor: Option<Dimension>)
    ensures BatchKeys(keys, cursor) == FirstOf(Rotation(keys, cursor), BATCH_SIZE)
  {
    hide InOrder, FirstOf;
    if cursor.Some? {
      FirstOfBoth(InOrder(After(keys, cursor.value)), InOrder(UpTo(keys, cursor.value)), BATCH_SIZE);
    }
  }

  lemma RotationShape(keys: set<Dimension>, cursor: Option<Dimension>)
    ensures |Rotation(keys, cursor)| == |keys| && Elements(Rotation(keys, cursor)) == keys
  {
    hide InOrder, Increasing;
    match cursor {
      case None => InOrderShape(keys);
      case Some(last) =>
        InOrderShape(After(keys, last));
        InOrderShape(UpTo(keys, last));
        assert keys == After(keys, last) + UpTo(keys, last);
        ElementsConcat(InOrder(After(keys, last)), InOrder(UpTo(keys, last)));
    }
  }

  lemma ElementsConcat(a: seq<Dimension>, b: seq<Dimension>)
    ensures Elements(a + b) == Elements(a) + Elements(b)
  {
  }

  // ----- Round robin -----

  /** The keys split at a place in an increasing listing of them. */
  lemma SplitAt(s: seq<Dimension>, keys: set<Dimension>, m: nat)
    requires Increasing(s) && Elements(s) == keys && 0 < m <= |s|
    ensures InOrder(After(keys, s[m - 1])) == s[m..] && InOrder(UpTo(keys, s[m - 1])) == s[..m]
  {
    hide InOrder;
    var last := s[m - 1];
    assert Elements(s[m..]) == After(keys, last);
    forall k
      ensures k in s[..m] <==> k in UpTo(keys, last)
    {
      if k in UpTo(keys, last) {
        var i :| 0 <= i < |s| && s[i] == k;
        assert s[..m][i] == k;
      }
    }
    assert Elements(s[..m]) == UpTo(keys, last);
    OneOrder(s[m..]);
    OneOrder(s[..m]);
  }

  function Prefix(n: nat): nat {
    if n < 128 then n else 128
  }

  /** A batch of the rotation moves from its front to its back. */
  lemma RotationTurns(keys: set<Dimension>, cursor: Option<Dimension>)
    ensures var r := Rotation(keys, cursor);
            var m := Prefix(|r|);
            Rotation(keys, NextCursor(keys, cursor)) == r[m..] + r[..m]
  {
    hide InOrder, Increasing;
    BatchIsRotationPrefix(keys, cursor);
    var r := Rotation(keys, cursor);
    var m := Prefix(|r|);
    assert BatchKeys(keys, cursor) == r[..m];
    if m > 0 {
      TurnAt(keys, cursor, m);
    }
  }

  lemma TurnAt(keys: set<Dimension>, cursor: Option<Dimension>, m: nat)
    requires 0 < m <= |Rotation(keys, cursor)|
    ensures var r := Rotation(keys, cursor); Rotation(keys, Some(r[m - 1])) == r[m..] + r[..m]
  {
    hide InOrder, Increasing, Elements;
    match cursor {
      case None =>
        InOrderShape(keys);
        SplitAt(InOrder(keys), keys, m);
      case Some(last) =>
        var a, b := InOrder(After(keys, last)), InOrder(UpTo(keys, last));
        WholeOrder(keys, last);
        var at := if m <= |a| then |b| + m else m - |a|;
        SplitAt(b + a, keys, at);
        Turned(a, b, m);
    }
  }

  lemma Turned(a: seq<Dimension>, b: seq<Dimension>, m: nat)
    requires 0 < m <= |a + b|
    ensures var at := if m <= |a| then |b| + m else m - |a|;
            && 0 < at <= |b + a| && (b + a)[at - 1] == (a + b)[m - 1]
            && (b + a)[at..] + (b + a)[..at] == (a + b)[m..] + (a + b)[..m]
  {
    if m <= |a| {
      assert (b + a)[|b| + m..] == a[m..] && (b + a)[..|b| + m] == b + a[..m];
      assert (a + b)[m..] == a[m..] + b && (a + b)[..m] == a[..m];
      assert a[m..] + (b + a[..m]) == (a[m..] + b) + a[..m];
    } else {
      var k := m - |a|;
      assert (b + a)[k..] == b[k..] + a && (b + a)[..k] == b[..k];
      assert (a + b)[m..] == b[k..] && (a + b)[..m] == a + b[..k];
      assert (b[k..] + a) + b[..k] == b[k..] + (a + b[..k]);
    }
  }

  lemma JoinIncreasing(a: seq<Dimension>, b: seq<Dimension>, last: Dimension)
    requires Increasing(a) && Increasing(b)
    requires forall k :: k in Elements(a) ==> k <= last
    requires forall k :: k in Elements(b) ==> k > last
    ensures Increasing(a + b)
  {
    assert forall i :: 0 <= i < |a| ==> a[i] in Elements(a);
    assert forall i :: 0 <= i < |b| ==> b[i] in Elements(b);
  }

  lemma WholeOrder(keys: set<Dimension>, last: Dimension)
    ensures var s := InOrder(UpTo(keys, last)) + InOrder(After(keys, last)); Increasing(s) && Elements(s) == keys
  {
    hide InOrder, Increasing;
    InOrderShape(UpTo(keys, last));
    InOrderShape(After(keys, last));
    var a, b := InOrder(UpTo(keys, last)), InOrder(After(keys, last));
    ElementsConcat(a, b);
    assert keys == UpTo(keys, last) + After(keys, last);
    JoinIncreasing(a, b, last);
  }

  /** The keys served by so many takes in a row, when every batch comes back. */
  ghost function Served(keys: set<Dimension>, cursor: Option<Dimension>, takes: nat): set<Dimension>
    decreases takes
  {
    if takes == 0 then {}
    else Elements(BatchKeys(keys, cursor)) + Served(keys, NextCursor(keys, cursor), takes - 1)
  }

  lemma {:induction false} ServedPrefix(keys: set<Dimension>, cursor: Option<Dimension>, takes: nat, i: nat)
    requires i < |Rotation(keys, cursor)| && i < takes * 128
    ensures Rotation(keys, cursor)[i] in Served(keys, cursor, takes)
    decreases takes
  {
    hide InOrder, BatchKeys, Rotation, NextCursor;
    BatchIsRotationPrefix(keys, cursor);
    var r := Rotation(keys, cursor);
    if i < BATCH_SIZE {
      assert FirstOf(r, BATCH_SIZE)[i] == r[i];
    } else {
      RotationTurns(keys, cursor);
      var next := NextCursor(keys, cursor);
      assert Rotation(keys, next)[i - BATCH_SIZE] == r[i];
      ServedPrefix(keys, next, takes - 1, i - BATCH_SIZE);
    }
  }

  /** Round robin: with n keys whose batches always come back, any ceil(n / 128) takes in a row serve every key, wherever the
      cursor stands. */
  lemma EveryKeyServed(keys: set<Dimension>, cursor: Option<Dimension>, takes: nat)
    requires |keys| <= takes * 128
    ensures Served(keys, cursor, takes) == keys
  {
    hide InOrder, Rotation, Served, BatchKeys, NextCursor;
    RotationShape(keys, cursor);
    var r := Rotation(keys, cursor);
    forall k | k in keys
      ensures k in Served(keys, cursor, takes)
    {
      assert k in Elements(r);
      var i :| 0 <= i < |r| && r[i] == k;
      ServedPrefix(keys, cursor, takes, i);
    }
    OnlyKeysServed(keys, cursor, takes);
  }

  lemma {:induction false} OnlyKeysServed(keys: set<Dimension>, cursor: Option<Dimension>, takes: nat)
    ensures Served(keys, cursor, takes) <= keys
    decreases takes
  {
    hide InOrder, BatchKeys, Rotation, NextCursor;
    if takes == 0 {
    } else {
      BatchIsRotationPrefix(keys, cursor);
      RotationShape(keys, cursor);
      var r := Rotation(keys, cursor);
      assert forall k :: k in FirstOf(r, BATCH_SIZE) ==> k in Elements(r);
      OnlyKeysServed(keys, NextCursor(keys, cursor), takes - 1);
    }
  }
}
