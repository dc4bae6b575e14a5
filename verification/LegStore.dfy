// Leg rows in the index: event rows enriched from the call's arguments without losing what the chain measured.

module LegStore {
  import opened AggregatorModel
  import opened Base
  import opened LegEvents
  import opened Ledger
  import opened Legs

  /** The first stored row with this key, or the number of rows. */
  function Position(stored: seq<ParsedLeg>, k: LegKey): (i: nat)
    ensures i <= |stored| && (i < |stored| ==> Key(stored[i]) == k)
    ensures forall j :: 0 <= j < i ==> Key(stored[j]) != k
  {
    if stored == [] then 0
    else if Key(stored[0]) == k then 0
    else
      var i := 1 + Position(stored[1..], k);
      assert forall j :: 0 < j < i ==> stored[j] == stored[1..][j - 1];
      i
  }

  /** A leg of the arguments with the amounts and the flag of a stored row. */
  function Enrich(leg: ParsedLeg, stored: ParsedLeg): ParsedLeg {
    leg.(amountIn := Or(stored.amountIn, leg.amountIn), amountOut := Or(stored.amountOut, leg.amountOut), actual := stored.actual)
  }

  function Without(stored: seq<ParsedLeg>, i: nat): seq<ParsedLeg>
    requires i < |stored|
  {
    stored[..i] + stored[i + 1..]
  }

  /** Each leg takes the first stored row with its key, if one is left. */
  function Replaced(stored: seq<ParsedLeg>, legs: seq<ParsedLeg>): seq<ParsedLeg> {
    if legs == [] then []
    else
      var i := Position(stored, Key(legs[0]));
      if i < |stored| then [Enrich(legs[0], stored[i])] + Replaced(Without(stored, i), legs[1..])
      else [legs[0]] + Replaced(stored, legs[1..])
  }

  lemma ReplacedNext(stored: seq<ParsedLeg>, legs: seq<ParsedLeg>, k: nat)
    requires k < |legs|
    ensures var i := Position(stored, Key(legs[k]));
            Replaced(stored, legs[k..]) ==
              if i < |stored| then [Enrich(legs[k], stored[i])] + Replaced(Without(stored, i), legs[k + 1..])
              else [legs[k]] + Replaced(stored, legs[k + 1..])
  {
    hide Position;
    assert legs[k..][1..] == legs[k + 1..];
  }

  lemma ReplacedEnd(stored: seq<ParsedLeg>, legs: seq<ParsedLeg>)
    ensures Replaced(stored, legs[|legs|..]) == [] && legs[0..] == legs
  {
  }

  // ----- What replacing keeps -----

  /** A row that differs from a leg of the arguments only in what was measured. */
  ghost predicate SameLeg(row: ParsedLeg, leg: ParsedLeg) {
    row == leg.(amountIn := row.amountIn, amountOut := row.amountOut, actual := row.actual)
  }

  /** The rows afterwards are the legs of the arguments, in order, up to what was measured. */
  lemma {:induction false} ReplacedShape(stored: seq<ParsedLeg>, legs: seq<ParsedLeg>)
    ensures |Replaced(stored, legs)| == |legs|
    ensures forall i :: 0 <= i < |legs| ==> SameLeg(Replaced(stored, legs)[i], legs[i])
    decreases |legs|
  {
    hide Position, Key, Without;
    if legs == [] {
    } else {
      var i := Position(stored, Key(legs[0]));
      ReplacedShape(if i < |stored| then Without(stored, i) else stored, legs[1..]);
    }
  }

  /** Every row afterwards has the place, venue, pool and tokens of its leg; its amounts and flag are those of a stored row of the same
      place, venue and pool, where that row knows them, or else the leg's own. */
  lemma {:induction false} RowsMatch(stored: seq<ParsedLeg>, legs: seq<ParsedLeg>, i: nat)
    requires i < |legs|
    ensures |Replaced(stored, legs)| == |legs|
    ensures var row, leg := Replaced(stored, legs)[i], legs[i];
            row == leg
            || exists j :: 0 <= j < |stored| && MatchedBy(row, leg, stored[j])
    decreases |legs|
  {
    hide Position;
    ReplacedShape(stored, legs);
    var at := Position(stored, Key(legs[0]));
    if i == 0 {
      if at < |stored| {
        assert MatchedBy(Replaced(stored, legs)[0], legs[0], stored[at]);
      }
    } else if at < |stored| {
      var rest := Without(stored, at);
      RowsMatch(rest, legs[1..], i - 1);
      if j :| 0 <= j < |rest| && MatchedBy(Replaced(rest, legs[1..])[i - 1], legs[i], rest[j]) {
        assert rest[j] == stored[if j < at then j else j + 1];
      }
    } else {
      RowsMatch(stored, legs[1..], i - 1);
    }
  }

  /** The row is the leg with what the stored row knew. */
  predicate MatchedBy(row: ParsedLeg, leg: ParsedLeg, stored: ParsedLeg) {
    && stored.index == leg.index && stored.source == leg.source && stored.pool == leg.pool
    && row == leg.(amountIn := if stored.amountIn.Some? then stored.amountIn else leg.amountIn,
                   amountOut := if stored.amountOut.Some? then stored.amountOut else leg.amountOut,
                   actual := stored.actual)
  }

  lemma ReplacedKeys(stored: seq<ParsedLeg>, legs: seq<ParsedLeg>)
    ensures Keys(Replaced(stored, legs)) == Keys(legs)
  {
    hide Replaced;
    ReplacedShape(stored, legs);
    assert forall i :: 0 <= i < |legs| ==> SameLeg(Replaced(stored, legs)[i], legs[i]) && Key(legs[i]) == Keys(legs)[i];
  }

  /** When both sources list the same keys in the same order, every row is matched with its own: no amount and no flag
      moves to another leg. */
  lemma {:induction false} SameOrderMatches(stored: seq<ParsedLeg>, legs: seq<ParsedLeg>)
    requires Keys(stored) == Keys(legs)
    ensures |Replaced(stored, legs)| == |legs| == |stored|
    ensures forall i :: 0 <= i < |legs| ==> Replaced(stored, legs)[i] == Enrich(legs[i], stored[i])
    decreases |legs|
  {
    assert |stored| == |Keys(stored)| == |legs|;
    if legs == [] {
    } else {
      assert Keys(stored)[0] == Keys(legs)[0];
      assert Position(stored, Key(legs[0])) == 0;
      assert Without(stored, 0) == stored[1..];
      assert Keys(stored[1..]) == Keys(stored)[1..] && Keys(legs[1..]) == Keys(legs)[1..];
      SameOrderMatches(stored[1..], legs[1..]);
    }
  }

  /** What the chain measured of a leg, under the leg's key. */
  function Measured(l: ParsedLeg): (LegKey, Option<int128>, Option<int128>, bool) {
    (Key(l), l.amountIn, l.amountOut, l.actual)
  }

  function Measures(legs: seq<ParsedLeg>): (m: seq<(LegKey, Option<int128>, Option<int128>, bool)>)
    ensures |m| == |legs| && forall i :: 0 <= i < |legs| ==> m[i] == Measured(legs[i])
  {
    seq(|legs|, i requires 0 <= i < |legs| => Measured(legs[i]))
  }

  function Tally(legs: seq<ParsedLeg>): multiset<(LegKey, Option<int128>, Option<int128>, bool)> {
    multiset(Measures(legs))
  }

  lemma TallyOfOthers<T>(s: seq<T>, i: nat)
    requires i < |s|
    ensures multiset(s) == multiset{s[i]} + multiset(s[..i] + s[i + 1..])
  {
    assert s == s[..i] + [s[i]] + s[i + 1..];
  }

  lemma TallyWithout(s: seq<ParsedLeg>, i: nat)
    requires i < |s|
    ensures Tally(s) == multiset{Measured(s[i])} + Tally(Without(s, i))
    ensures multiset(Keys(s)) == multiset{Key(s[i])} + multiset(Keys(Without(s, i)))
  {
    hide Measured, Key;
    TallyOfOthers(Measures(s), i);
    TallyOfOthers(Keys(s), i);
    assert Measures(Without(s, i)) == Measures(s)[..i] + Measures(s)[i + 1..];
    assert Keys(Without(s, i)) == Keys(s)[..i] + Keys(s)[i + 1..];
  }

  lemma TallyCons(head: ParsedLeg, rest: seq<ParsedLeg>)
    ensures Tally([head] + rest) == multiset{Measured(head)} + Tally(rest)
  {
    hide Measured;
    assert Measures([head] + rest) == [Measured(head)] + Measures(rest);
  }

  lemma KeyIsStored(stored: seq<ParsedLeg>, k: LegKey)
    requires k in multiset(Keys(stored))
    ensures Position(stored, k) < |stored|
  {
    var i :| 0 <= i < |Keys(stored)| && Keys(stored)[i] == k;
    assert Key(stored[i]) == k;
  }

  /** However the rows are ordered, if both sources hold the same keys equally often, then replacing keeps every stored
      amount and flag under its key. */
  lemma {:induction false} SameKeysKeepAmounts(stored: seq<ParsedLeg>, legs: seq<ParsedLeg>)
    requires multiset(Keys(stored)) == multiset(Keys(legs))
    requires forall i :: 0 <= i < |stored| ==> stored[i].amountIn.Some?
    requires forall i :: 0 <= i < |legs| ==> legs[i].amountOut.None?
    ensures Tally(Replaced(stored, legs)) == Tally(stored)
    decreases |legs|
  {
    hide Position, Key, Measured, Keys, Tally, Enrich, Without;
    if legs == [] {
      NoKeys(stored);
    } else {
      var i, rest := FirstMatch(stored, legs);
      SameKeysKeepAmounts(rest, legs[1..]);
      TallyWithout(stored, i);
      EnrichKeepsMeasure(legs[0], stored[i]);
      TallyCons(Enrich(legs[0], stored[i]), Replaced(rest, legs[1..]));
    }
  }

  lemma WithoutIsIn(stored: seq<ParsedLeg>, i: nat)
    requires i < |stored|
    ensures forall j :: 0 <= j < |Without(stored, i)| ==> Without(stored, i)[j] in stored
  {
  }

  lemma WithoutFirst(legs: seq<ParsedLeg>)
    requires legs != []
    ensures Without(legs, 0) == legs[1..]
  {
  }

  lemma FirstMatch(stored: seq<ParsedLeg>, legs: seq<ParsedLeg>) returns (i: nat, rest: seq<ParsedLeg>)
    requires multiset(Keys(stored)) == multiset(Keys(legs)) && legs != []
    ensures i == Position(stored, Key(legs[0])) && i < |stored| && rest == Without(stored, i)
    ensures multiset(Keys(rest)) == multiset(Keys(legs[1..]))
    ensures forall j :: 0 <= j < |rest| ==> rest[j] in stored
  {
    hide Position, Key, Keys, Tally, Without;
    TallyWithout(legs, 0);
    WithoutFirst(legs);
    KeyIsStored(stored, Key(legs[0]));
    i := Position(stored, Key(legs[0]));
    rest := Without(stored, i);
    WithoutIsIn(stored, i);
    TallyWithout(stored, i);
    Cancel(multiset(Keys(rest)), multiset(Keys(legs[1..])), Key(legs[0]));
  }

  lemma Cancel<T>(a: multiset<T>, b: multiset<T>, k: T)
    requires multiset{k} + a == multiset{k} + b
    ensures a == b
  {
    assert a == (multiset{k} + a) - multiset{k};
  }

  lemma NoKeys(stored: seq<ParsedLeg>)
    requires multiset(Keys(stored)) == multiset(Keys([]))
    ensures stored == []
  {
    assert |multiset(Keys(stored))| == |stored|;
    assert |multiset(Keys([]))| == 0;
  }

  lemma EnrichKeepsMeasure(leg: ParsedLeg, stored: ParsedLeg)
    requires Key(leg) == Key(stored) && stored.amountIn.Some? && leg.amountOut.None?
    ensures Measured(Enrich(leg, stored)) == Measured(stored)
  {
  }

  lemma {:induction false} ReplacedIsEnriched(stored: seq<ParsedLeg>, legs: seq<ParsedLeg>)
    ensures |Replaced(stored, legs)| == |legs|
    ensures forall i :: 0 <= i < |legs| ==> Replaced(stored, legs)[i] == Enrich(legs[i], Replaced(stored, legs)[i])
    decreases |legs|
  {
    hide Position;
    if legs == [] {
    } else {
      var i := Position(stored, Key(legs[0]));
      ReplacedIsEnriched(if i < |stored| then Without(stored, i) else stored, legs[1..]);
    }
  }

  /** Enriching twice in a row from the same arguments is enriching once, whatever was stored. */
  lemma {:induction false} ReplaceTwice(stored: seq<ParsedLeg>, legs: seq<ParsedLeg>)
    ensures Replaced(Replaced(stored, legs), legs) == Replaced(stored, legs)
  {
    hide Replaced, Enrich;
    var once := Replaced(stored, legs);
    ReplacedKeys(stored, legs);
    ReplacedIsEnriched(stored, legs);
    SameOrderMatches(once, legs);
  }

  // ----- A replayed batch -----

  /** The second list measures nothing that the first did not. */
  predicate NothingNew(first: seq<ParsedLeg>, again: seq<ParsedLeg>)
    requires |first| == |again|
  {
    forall i :: 0 <= i < |again| ==>
      && (again[i].amountIn.Some? ==> first[i].amountIn.Some?)
      && (again[i].amountOut.Some? ==> first[i].amountOut.Some?)
  }

  lemma KeysLength(a: seq<ParsedLeg>, b: seq<ParsedLeg>)
    requires Keys(a) == Keys(b)
    ensures |a| == |b|
    ensures forall i :: 0 <= i < |a| ==> Key(a[i]) == Key(b[i])
  {
    assert |Keys(a)| == |Keys(b)|;
    assert forall i :: 0 <= i < |a| ==> Keys(a)[i] == Keys(b)[i];
  }

  /** A replay offers the rows to the event legs first. That alone keeps every amount and flag, but replaces the tokens by
      those of the events, which name no output token: if the envelopes cannot be fetched then, the output tokens are gone. */
  lemma EventHalfTakesTokens(events: seq<ParsedLeg>, again: seq<ParsedLeg>, legs: seq<ParsedLeg>)
    requires Keys(events) == Keys(legs) == Keys(again) && |events| == |again| && NothingNew(events, again)
    ensures var rows := Replaced(events, legs);
            var half := Replaced(rows, again);
            && |half| == |rows| == |again|
            && forall i :: 0 <= i < |half| ==> half[i] == rows[i].(tokenIn := again[i].tokenIn, tokenOut := again[i].tokenOut)
  {
    hide Replaced, Key, Keys;
    SameOrderMatches(events, legs);
    ReplacedKeys(events, legs);
    SameOrderMatches(Replaced(events, legs), again);
    KeysLength(events, legs);
    KeysLength(again, legs);
    forall i | 0 <= i < |legs|
      ensures Replaced(Replaced(events, legs), again)[i]
              == Replaced(events, legs)[i].(tokenIn := again[i].tokenIn, tokenOut := again[i].tokenOut)
    {
      KeyMeans(again[i], legs[i]);
    }
  }

  lemma KeyMeans(a: ParsedLeg, b: ParsedLeg)
    ensures Key(a) == Key(b) <==> a.index == b.index && a.source == b.source && a.pool == b.pool
  {
  }

  /** A whole replayed batch, events and then envelopes, leaves the rows as they were. */
  lemma ReplayedBatch(events: seq<ParsedLeg>, again: seq<ParsedLeg>, legs: seq<ParsedLeg>)
    requires Keys(events) == Keys(legs) == Keys(again) && |events| == |again| && NothingNew(events, again)
    ensures var rows := Replaced(events, legs);
            Replaced(Replaced(rows, again), legs) == rows
  {
    hide Replaced, Key, Keys, Enrich;
    var rows := Replaced(events, legs);
    EventHalfTakesTokens(events, again, legs);
    ReplacedKeys(rows, again);
    SameOrderMatches(Replaced(rows, again), legs);
    SameOrderMatches(events, legs);
    KeysLength(again, legs);
    forall i | 0 <= i < |legs|
      ensures Enrich(legs[i], Replaced(rows, again)[i]) == rows[i]
    {
      EnrichAgain(legs[i], events[i], again[i]);
    }
  }

  lemma EnrichAgain(leg: ParsedLeg, stored: ParsedLeg, again: ParsedLeg)
    ensures var row := Enrich(leg, stored);
            Enrich(leg, row.(tokenIn := again.tokenIn, tokenOut := again.tokenOut)) == row
  {
  }

  /** The legs of the events of one call: they name no output token, and a replay of the same events measures nothing new. */
  lemma EventLegsNameNoOutput(events: seq<AggregatorEvent>)
    requires forall i :: 0 <= i < |events| ==> events[i].Leg?
    ensures NothingNew(EventLegs(events), EventLegs(events))
    ensures forall i :: 0 <= i < |events| ==> EventLegs(events)[i].tokenOut.None?
  {
  }

  /** The rows of a trade survive a replay of its batch; between its halves only the output tokens are missing. */
  ghost predicate SurvivesReplay(events: seq<ParsedLeg>, legs: seq<ParsedLeg>) {
    var rows := Replaced(events, legs);
    var half := Replaced(rows, events);
    && Replaced(half, legs) == rows
    && |half| == |rows| && forall i :: 0 <= i < |half| ==> half[i] == rows[i].(tokenOut := None)
  }

  lemma TradeSurvivesReplay(events: seq<AggregatorEvent>, legs: seq<ParsedLeg>)
    requires AnnouncesAll(events, legs)
    ensures forall i :: 0 <= i < |events| ==> events[i].Leg?
    ensures SurvivesReplay(EventLegs(events), legs)
  {
    hide Replaced, AnnouncesAll, Keys, NothingNew;
    AnnouncedKeys(events, legs);
    EventLegsNameNoOutput(events);
    KeysLength(EventLegs(events), legs);
    EventHalfTakesTokens(EventLegs(events), EventLegs(events), legs);
    ReplayedBatch(EventLegs(events), EventLegs(events), legs);
    ReplacedShape(EventLegs(events), legs);
    var rows := Replaced(EventLegs(events), legs);
    assert forall i :: 0 <= i < |rows| ==> SameLeg(rows[i], legs[i]) && rows[i].tokenIn == legs[i].tokenIn;
  }

  // ----- One call, end to end -----

  /** A row of the arguments with the input the chain measured. */
  function Settled(leg: ParsedLeg, e: AggregatorEvent): ParsedLeg
    requires e.Leg?
  {
    leg.(amountIn := Some(e.amountIn), actual := true)
  }

  lemma AnnouncedLegsSettle(events: seq<AggregatorEvent>, legs: seq<ParsedLeg>)
    requires AnnouncesAll(events, legs)
    ensures |events| == |legs| == |Replaced(EventLegs(events), legs)|
    ensures forall i :: 0 <= i < |events| ==> events[i].Leg?
    ensures forall i :: 0 <= i < |legs| ==> Replaced(EventLegs(events), legs)[i] == Settled(legs[i], events[i])
  {
    hide Replaced, Key;
    AnnouncedKeys(events, legs);
    SameOrderMatches(EventLegs(events), legs);
  }

  /** Leg agreement: for every successful round trip, enriching the rows made of its events with the legs of its arguments
      matches each row with the leg of the same hop, and keeps every amount the chain measured. */
  lemma RoundTripLegsAgree(c: Chain, auth: set<Address>, user: Address, base: Address, bridge: Address, amountIn: int128,
                           legOut: seq<SubRoute>, legBack: seq<SubRoute>, minOut: int128, replies: seq<AggregatorModel.Reply>,
                           c': Chain, out: int128) returns (events: seq<AggregatorEvent>, depth: uint32)
    requires ShortPaths(legOut) && ShortPaths(legBack)
    requires RoundTrip(c, auth, user, base, bridge, amountIn, legOut, legBack, minOut, replies) == Ok((c', out))
    ensures Fits(legOut, 0) && Fits(legBack, Depth(legOut, |legOut|))
    ensures c'.log == c.log + events + [RoundTripDone(user, base, bridge, amountIn, out, depth, |legOut| > 1 || |legBack| > 1)]
    ensures forall i :: 0 <= i < |events| ==> events[i].Leg?
    ensures var legs := RoundTripLegs(legOut, legBack);
            var rows := Replaced(EventLegs(events), legs);
            |events| == |legs| == |rows| && forall i :: 0 <= i < |rows| ==> rows[i] == Settled(legs[i], events[i])
    ensures SurvivesReplay(EventLegs(events), RoundTripLegs(legOut, legBack))
  {
    hide RoundTrip, AnnouncesAll, RoundTripLegs, Replaced, Depth, SurvivesReplay;
    events, depth := RoundTripEmits(c, auth, user, base, bridge, amountIn, legOut, legBack, minOut, replies, c', out);
    TradeSurvivesReplay(events, RoundTripLegs(legOut, legBack));
    AnnouncedLegsSettle(events, RoundTripLegs(legOut, legBack));
  }

  lemma SwapLegsAgree(c: Chain, auth: set<Address>, user: Address, tokenIn: Address, tokenOut: Address, routes: seq<SubRoute>,
                      minOut: int128, replies: seq<AggregatorModel.Reply>, c': Chain, out: int128)
    returns (events: seq<AggregatorEvent>, totalIn: int128)
    requires ShortPaths(routes) && Swap(c, auth, user, tokenIn, tokenOut, routes, minOut, replies) == Ok((c', out))
    ensures Fits(routes, 0) && totalIn == Sum(Amounts(routes))
    ensures c'.log == c.log + events + [SwapDone(user, tokenIn, tokenOut, totalIn, out, |routes|)]
    ensures forall i :: 0 <= i < |events| ==> events[i].Leg?
    ensures var legs := RouteLegs(routes, |routes|, 0);
            var rows := Replaced(EventLegs(events), legs);
            |events| == |legs| == |rows| && forall i :: 0 <= i < |rows| ==> rows[i] == Settled(legs[i], events[i])
    ensures SurvivesReplay(EventLegs(events), RouteLegs(routes, |routes|, 0))
  {
    hide Swap, AnnouncesAll, RouteLegs, Replaced, SurvivesReplay;
    events, totalIn := SwapEmits(c, auth, user, tokenIn, tokenOut, routes, minOut, replies, c', out);
    TradeSurvivesReplay(events, RouteLegs(routes, |routes|, 0));
    AnnouncedLegsSettle(events, RouteLegs(routes, |routes|, 0));
  }

  // ----- The tables -----

  /** An invocation row has no legs of its own: those are rows of another table, in insertion order. */
  class LegStore {
    var invocations: map<string, Record>
    var legs: map<string, seq<ParsedLeg>>

    constructor ()
      ensures invocations == map[] && legs == map[]
    {
      invocations, legs := map[], map[];
    }

    function LegsOf(txHash: string): seq<ParsedLeg>
      reads this
    {
      if txHash in legs then legs[txHash] else []
    }

    /** INSERT OR IGNORE: legs are written with the first record of a transaction only. */
    method InsertInvocation(txHash: string, record: Record) returns (inserted: bool)
      modifies this
      ensures inserted <==> txHash !in old(invocations)
      ensures !inserted ==> invocations == old(invocations) && legs == old(legs)
      ensures inserted ==> invocations == old(invocations)[txHash := record.(parsed := record.parsed.(legs := []))]
      ensures inserted ==> legs == old(legs)[txHash := old(LegsOf(txHash)) + record.parsed.legs]
    {
      inserted := txHash !in invocations;
      if !inserted {
        return;
      }
      invocations := invocations[txHash := record.(parsed := record.parsed.(legs := []))];
      var rows := LegsOf(txHash);
      var i := 0;
      while i < |record.parsed.legs|
        invariant 0 <= i <= |record.parsed.legs| && rows == LegsOf(txHash) + record.parsed.legs[..i]
      {
        rows := rows + [record.parsed.legs[i]];
        i := i + 1;
      }
      assert record.parsed.legs[..i] == record.parsed.legs;
      legs := legs[txHash := rows];
    }

    /** `replace_invocation_legs`. */
    method ReplaceInvocationLegs(txHash: string, parsed: Invocation) returns (found: bool)
      modifies this
      ensures found <==> txHash in old(invocations)
      ensures !found ==> invocations == old(invocations) && legs == old(legs)
      ensures found ==> legs == old(legs)[txHash := Replaced(old(LegsOf(txHash)), parsed.legs)]
      ensures found ==>
                var was := old(invocations)[txHash];
                invocations == old(invocations)[txHash := was.(parsed := was.parsed.(
                  bridge := parsed.bridge, isSplit := parsed.isSplit, amountOut := Or(was.parsed.amountOut, parsed.amountOut)))]
    {
      hide Position, Replaced, Enrich, Without;
      found := txHash in invocations;
      if !found {
        return;
      }
      var stored := LegsOf(txHash);
      var row := invocations[txHash];
      var header := row.parsed.(bridge := parsed.bridge, isSplit := parsed.isSplit,
                                amountOut := Or(row.parsed.amountOut, parsed.amountOut));
      invocations := invocations[txHash := row.(parsed := header)];
      var rows := [];
      var i := 0;
      ghost var all := Replaced(stored, parsed.legs);
      ReplacedEnd(stored, parsed.legs);
      while i < |parsed.legs|
        invariant 0 <= i <= |parsed.legs|
        invariant rows + Replaced(stored, parsed.legs[i..]) == all
        invariant legs == old(legs) && invocations == old(invocations)[txHash := row.(parsed := header)]
      {
        var leg := parsed.legs[i];
        var at := Position(stored, Key(leg));
        ReplacedNext(stored, parsed.legs, i);
        if at < |stored| {
          rows := rows + [Enrich(leg, stored[at])];
          stored := Without(stored, at);
        } else {
          rows := rows + [leg];
        }
        i := i + 1;
      }
      ReplacedEnd(stored, parsed.legs);
      assert rows + [] == rows;
      legs := legs[txHash := rows];
    }
  }
}
