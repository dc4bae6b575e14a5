// Whose money the contracts hold, over every run of the whole system.

module Custody {
  import opened AggregatorModel
  import opened Base
  import opened EscrowModel
  import opened Ledger
  import Settlement

  /** The claim of one order on the escrow. */
  datatype Claim = Claim(token: Address, amount: Amount)

  function LimitClaims(b: Book): map<uint64, Claim> {
    map id | id in b.limits :: Claim(b.limits[id].tokenIn, b.limits[id].remaining)
  }

  function DcaClaims(b: Book): map<uint64, Claim> {
    map id | id in b.dcas :: Claim(b.dcas[id].tokenIn, b.dcas[id].remaining)
  }

  function ClaimIn(m: map<uint64, Claim>, id: uint64, t: Address): nat {
    if id in m && m[id].token == t then m[id].amount else 0
  }

  /** What the orders with ids below n claim in token t. */
  ghost function Claimed(m: map<uint64, Claim>, n: uint64, t: Address): nat
    decreases n
  {
    if n == 0 then 0 else Claimed(m, n - 1, t) + ClaimIn(m, n - 1, t)
  }

  lemma {:induction false} ClaimChanges(m: map<uint64, Claim>, n: uint64, id: uint64, claim: Claim, t: Address)
    ensures Claimed(m[id := claim], n, t) == Claimed(m, n, t)
              + if id < n then ClaimIn(m[id := claim], id, t) - ClaimIn(m, id, t) else 0
    decreases n
  {
    if n == 0 {
    } else {
      ClaimChanges(m, n - 1, id, claim, t);
    }
  }

  /** What the escrow holds in token t beyond everything its orders still claim. */
  ghost function Spare(c: Chain, b: Book, t: Address): int {
    Balance(c, t, Escrow) - Claimed(LimitClaims(b), b.nextLimit, t) - Claimed(DcaClaims(b), b.nextDca, t)
  }

  predicate Outsider(a: Address) {
    a != Aggregator && a != Escrow && a != Vault
  }

  ghost predicate ValidLimit(o: LimitOrder) {
    && Outsider(o.owner) && o.tokenIn != o.tokenOut && o.limit > 0
    && (o.status.Open? <==> o.remaining > 0)
  }

  ghost predicate ValidDca(o: DcaOrder) {
    && Outsider(o.owner) && o.tokenIn != o.tokenOut && o.chunk > 0 && o.interval > 0
    && (o.status.Open? <==> o.remaining > 0)
  }

  /** Ids are handed out densely, and every stored order is open exactly while it has something left. */
  ghost predicate ValidBook(b: Book) {
    && (forall id: uint64 :: id in b.limits <==> id < b.nextLimit)
    && (forall id: uint64 :: id in b.dcas <==> id < b.nextDca)
    && (forall id :: id in b.limits ==> ValidLimit(b.limits[id]))
    && (forall id :: id in b.dcas ==> ValidDca(b.dcas[id]))
  }

  lemma LimitUpdate(b: Book, id: uint64, o: LimitOrder, log: seq<Entry>, t: Address)
    requires id in b.limits && id < b.nextLimit && o.tokenIn == b.limits[id].tokenIn
    ensures var b' := b.(limits := b.limits[id := o], log := log);
            && Claimed(LimitClaims(b'), b.nextLimit, t) == Claimed(LimitClaims(b), b.nextLimit, t)
                 + Settlement.When(t == o.tokenIn, o.remaining - b.limits[id].remaining)
            && DcaClaims(b') == DcaClaims(b)
  {
    var b' := b.(limits := b.limits[id := o], log := log);
    var claim := Claim(o.tokenIn, o.remaining);
    assert LimitClaims(b') == LimitClaims(b)[id := claim];
    ClaimChanges(LimitClaims(b), b.nextLimit, id, claim, t);
  }

  lemma LimitInsert(b: Book, o: LimitOrder, log: seq<Entry>, t: Address)
    requires b.nextLimit < U64_MAX && b.nextLimit !in b.limits
    ensures var b' := b.(limits := b.limits[b.nextLimit := o], nextLimit := b.nextLimit + 1, log := log);
            && Claimed(LimitClaims(b'), b'.nextLimit, t) == Claimed(LimitClaims(b), b.nextLimit, t)
                 + Settlement.When(t == o.tokenIn, o.remaining)
            && DcaClaims(b') == DcaClaims(b)
  {
    var b' := b.(limits := b.limits[b.nextLimit := o], nextLimit := b.nextLimit + 1, log := log);
    var claim := Claim(o.tokenIn, o.remaining);
    assert LimitClaims(b') == LimitClaims(b)[b.nextLimit := claim];
    ClaimChanges(LimitClaims(b), b.nextLimit, b.nextLimit, claim, t);
  }

  lemma DcaUpdate(b: Book, id: uint64, o: DcaOrder, log: seq<Entry>, t: Address)
    requires id in b.dcas && id < b.nextDca && o.tokenIn == b.dcas[id].tokenIn
    ensures var b' := b.(dcas := b.dcas[id := o], log := log);
            && Claimed(DcaClaims(b'), b.nextDca, t) == Claimed(DcaClaims(b), b.nextDca, t)
                 + Settlement.When(t == o.tokenIn, o.remaining - b.dcas[id].remaining)
            && LimitClaims(b') == LimitClaims(b)
  {
    var b' := b.(dcas := b.dcas[id := o], log := log);
    var claim := Claim(o.tokenIn, o.remaining);
    assert DcaClaims(b') == DcaClaims(b)[id := claim];
    ClaimChanges(DcaClaims(b), b.nextDca, id, claim, t);
  }

  lemma DcaInsert(b: Book, o: DcaOrder, log: seq<Entry>, t: Address)
    requires b.nextDca < U64_MAX && b.nextDca !in b.dcas
    ensures var b' := b.(dcas := b.dcas[b.nextDca := o], nextDca := b.nextDca + 1, log := log);
            && Claimed(DcaClaims(b'), b'.nextDca, t) == Claimed(DcaClaims(b), b.nextDca, t)
                 + Settlement.When(t == o.tokenIn, o.remaining)
            && LimitClaims(b') == LimitClaims(b)
  {
    var b' := b.(dcas := b.dcas[b.nextDca := o], nextDca := b.nextDca + 1, log := log);
    var claim := Claim(o.tokenIn, o.remaining);
    assert DcaClaims(b') == DcaClaims(b)[b.nextDca := claim];
    ClaimChanges(DcaClaims(b), b.nextDca, b.nextDca, claim, t);
  }

  // ----- One escrow call -----

  lemma {:induction false} RoutedFromIsSum(routes: seq<SubRoute>, i: nat, acc: int128)
    requires i <= |routes| && acc == Sum(Amounts(routes)[..i])
    ensures RoutedFrom(routes, i, acc).Ok? ==> RoutedFrom(routes, i, acc).value == Sum(Amounts(routes))
    decreases |routes| - i
  {
    hide Sum;
    var w := Amounts(routes);
    if i == |routes| {
      assert w[..i] == w;
    } else if RoutedFrom(routes, i, acc).Ok? {
      SumTake(w, i);
      RoutedFromIsSum(routes, i + 1, acc + routes[i].amountIn);
    }
  }

  lemma RoutedIsSum(routes: seq<SubRoute>)
    ensures RoutedFrom(routes, 0, 0).Ok? ==> RoutedFrom(routes, 0, 0).value == Sum(Amounts(routes))
  {
    assert Amounts(routes)[..0] == [];
    RoutedFromIsSum(routes, 0, 0);
  }

  /** A fill's swap: the escrow pays the input and nothing else, the owner gets all of the output. */
  lemma SwapForOwnerAccount(c: Chain, venues: set<(uint32, Address)>, owner: Address, tokenIn: Address, tokenOut: Address,
                            routes: seq<SubRoute>, minOut: int128, replies: seq<Reply>, c': Chain, out: Amount, t: Address)
    requires Outsider(owner)
    requires SwapForOwner(c, venues, owner, tokenIn, tokenOut, routes, minOut, replies) == Ok((c', out))
    ensures && Balance(c', t, Escrow) == Balance(c, t, Escrow) - Settlement.When(t == tokenIn, Sum(Amounts(routes)))
            && Balance(c', t, Vault) == Balance(c, t, Vault)
            && Balance(c', t, Aggregator) == Balance(c, t, Aggregator) + Settlement.RoutesExcess(routes, 0, replies, 0, t)
            && out >= minOut > 0
            && AllRegistered(venues, routes)
  {
    hide AggregatorModel.Swap, Transfer, Balance, Sum, Amounts, Settlement.RoutesExcess, AllRegistered;
    var (c1, out1) := SwapRestricted(c, venues, {Escrow}, Escrow, tokenIn, tokenOut, routes, minOut, replies).value;
    Settlement.SwapSettles(c, {Escrow}, Escrow, tokenIn, tokenOut, routes, minOut, replies, c1, out1, t);
  }

  /** What one escrow call keeps: the book stays valid, the escrow's spare holdings do not move, and the
      other contracts' balances change by `excess` (the aggregator) and not at all (the vault). */
  ghost predicate Keeps(c: Chain, b: Book, c': Chain, b': Book, excess: int, t: Address) {
    && ValidBook(b')
    && Spare(c', b', t) == Spare(c, b, t)
    && Balance(c', t, Vault) == Balance(c, t, Vault)
    && Balance(c', t, Aggregator) == Balance(c, t, Aggregator) + excess
  }

  /** A payment between an outsider and the escrow, seen by the three contracts. */
  lemma EscrowReceives(c: Chain, token: Address, from: Address, amount: int, c': Chain, t: Address)
    requires Outsider(from) && Transfer(c, token, from, Escrow, amount) == Ok(c')
    ensures Balance(c', t, Escrow) == Balance(c, t, Escrow) + Settlement.When(t == token, amount)
    ensures Balance(c', t, Vault) == Balance(c, t, Vault) && Balance(c', t, Aggregator) == Balance(c, t, Aggregator)
  {
    hide Transfer, Balance;
  }

  lemma EscrowPays(c: Chain, token: Address, to: Address, amount: int, c': Chain, t: Address)
    requires Outsider(to) && Transfer(c, token, Escrow, to, amount) == Ok(c')
    ensures Balance(c', t, Escrow) == Balance(c, t, Escrow) - Settlement.When(t == token, amount)
    ensures Balance(c', t, Vault) == Balance(c, t, Vault) && Balance(c', t, Aggregator) == Balance(c, t, Aggregator)
  {
    hide Transfer, Balance;
  }

  lemma StoredLimitValid(b: Book, id: uint64, o: LimitOrder, next: uint64, log: seq<Entry>)
    requires ValidBook(b) && ValidLimit(o)
    requires (id < b.nextLimit && next == b.nextLimit) || (id == b.nextLimit < U64_MAX && next == id + 1)
    ensures ValidBook(b.(limits := b.limits[id := o], nextLimit := next, log := log))
  {
    hide ValidLimit, ValidDca;
  }

  lemma StoredDcaValid(b: Book, id: uint64, o: DcaOrder, next: uint64, log: seq<Entry>)
    requires ValidBook(b) && ValidDca(o)
    requires (id < b.nextDca && next == b.nextDca) || (id == b.nextDca < U64_MAX && next == id + 1)
    ensures ValidBook(b.(dcas := b.dcas[id := o], nextDca := next, log := log))
  {
    hide ValidLimit, ValidDca;
  }

  lemma NextIdsFree(b: Book)
    requires ValidBook(b)
    ensures b.nextLimit !in b.limits && b.nextDca !in b.dcas
  {
  }

  /** What a successful creation does: the input moves to the escrow, and the order is stored and announced. */
  lemma CreateLimitEffect(c: Chain, b: Book, auth: set<Address>, now: uint32, owner: Address, tokenIn: Address, tokenOut: Address,
                          amountIn: int128, limit: int128, expires: uint32, c': Chain, b': Book)
    requires CreateLimit(c, b, auth, now, owner, tokenIn, tokenOut, amountIn, limit, expires) == Ok((c', b'))
    ensures owner in auth && amountIn > 0 && limit > 0 && tokenIn != tokenOut && b.nextLimit < U64_MAX
    ensures Transfer(c, tokenIn, owner, Escrow, amountIn) == Ok(c')
    ensures b' == b.(limits := b.limits[b.nextLimit := LimitOrder(owner, tokenIn, tokenOut, amountIn, limit, expires, Open)],
                     nextLimit := b.nextLimit + 1,
                     log := b.log + [Entry(now, LimitCreated(b.nextLimit, owner, tokenIn, tokenOut, amountIn, limit, expires))])
  {
    hide Transfer, SaturatingLifetime;
  }

  lemma CreateDcaEffect(c: Chain, b: Book, auth: set<Address>, now: uint32, owner: Address, tokenIn: Address, tokenOut: Address,
                        amountIn: int128, chunk: int128, interval: uint32, start: uint32, minRate: int128, expires: uint32,
                        c': Chain, b': Book)
    requires CreateDca(c, b, auth, now, owner, tokenIn, tokenOut, amountIn, chunk, interval, start, minRate, expires) == Ok((c', b'))
    ensures owner in auth && amountIn > 0 && chunk > 0 && interval > 0 && minRate >= 0 && tokenIn != tokenOut && b.nextDca < U64_MAX
    ensures Transfer(c, tokenIn, owner, Escrow, amountIn) == Ok(c')
    ensures b' == b.(dcas := b.dcas[b.nextDca := DcaOrder(owner, tokenIn, tokenOut, amountIn, chunk, interval, start, minRate,
                                                          expires, Open)],
                     nextDca := b.nextDca + 1,
                     log := b.log + [Entry(now, DcaCreated(b.nextDca, owner, tokenIn, tokenOut, amountIn, chunk, interval, start,
                                                           minRate, expires))])
  {
    hide Transfer, SaturatingLifetime;
  }

  lemma CreateLimitKeeps(c: Chain, b: Book, auth: set<Address>, now: uint32, owner: Address, tokenIn: Address, tokenOut: Address,
                         amountIn: int128, limit: int128, expires: uint32, c': Chain, b': Book, t: Address)
    requires ValidBook(b) && (forall a :: a in auth ==> Outsider(a))
    requires CreateLimit(c, b, auth, now, owner, tokenIn, tokenOut, amountIn, limit, expires) == Ok((c', b'))
    ensures Keeps(c, b, c', b', 0, t)
  {
    hide CreateLimit, Balance, Transfer, Claimed, LimitClaims, DcaClaims, ValidBook, Settlement.When;
    CreateLimitEffect(c, b, auth, now, owner, tokenIn, tokenOut, amountIn, limit, expires, c', b');
    var o := LimitOrder(owner, tokenIn, tokenOut, amountIn, limit, expires, Open);
    NextIdsFree(b);
    EscrowReceives(c, tokenIn, owner, amountIn, c', t);
    StoredLimitValid(b, b.nextLimit, o, b.nextLimit + 1, b'.log);
    LimitInsert(b, o, b'.log, t);
  }

  lemma CreateDcaKeeps(c: Chain, b: Book, auth: set<Address>, now: uint32, owner: Address, tokenIn: Address, tokenOut: Address,
                       amountIn: int128, chunk: int128, interval: uint32, start: uint32, minRate: int128, expires: uint32,
                       c': Chain, b': Book, t: Address)
    requires ValidBook(b) && (forall a :: a in auth ==> Outsider(a))
    requires CreateDca(c, b, auth, now, owner, tokenIn, tokenOut, amountIn, chunk, interval, start, minRate, expires) == Ok((c', b'))
    ensures Keeps(c, b, c', b', 0, t)
  {
    hide CreateDca, Balance, Transfer, Claimed, LimitClaims, DcaClaims, ValidBook, Settlement.When;
    CreateDcaEffect(c, b, auth, now, owner, tokenIn, tokenOut, amountIn, chunk, interval, start, minRate, expires, c', b');
    var o := DcaOrder(owner, tokenIn, tokenOut, amountIn, chunk, interval, start, minRate, expires, Open);
    NextIdsFree(b);
    EscrowReceives(c, tokenIn, owner, amountIn, c', t);
    StoredDcaValid(b, b.nextDca, o, b.nextDca + 1, b'.log);
    DcaInsert(b, o, b'.log, t);
  }

  lemma StoredLimitOf(b: Book, id: uint64)
    requires ValidBook(b) && id in b.limits
    ensures ValidLimit(b.limits[id]) && id < b.nextLimit
  {
  }

  lemma CloseLimitKeeps(c: Chain, b: Book, now: uint32, id: uint64, status: OrderStatus, c': Chain, b': Book, t: Address)
    requires ValidBook(b) && id in b.limits && b.limits[id].status.Open? && !status.Open?
    requires CloseLimit(c, b, now, id, status) == Ok((c', b'))
    ensures Keeps(c, b, c', b', 0, t)
  {
    hide Balance, Transfer, Claimed, LimitClaims, DcaClaims, ValidBook;
    var o := b.limits[id];
    StoredLimitOf(b, id);
    EscrowPays(c, o.tokenIn, o.owner, o.remaining, c', t);
    StoredLimitValid(b, id, o.(remaining := 0, status := status), b.nextLimit, b'.log);
    LimitUpdate(b, id, o.(remaining := 0, status := status), b'.log, t);
  }

  lemma StoredDcaOf(b: Book, id: uint64)
    requires ValidBook(b) && id in b.dcas
    ensures ValidDca(b.dcas[id]) && id < b.nextDca
  {
  }

  lemma CloseDcaKeeps(c: Chain, b: Book, now: uint32, id: uint64, status: OrderStatus, c': Chain, b': Book, t: Address)
    requires ValidBook(b) && id in b.dcas && b.dcas[id].status.Open? && !status.Open?
    requires CloseDca(c, b, now, id, status) == Ok((c', b'))
    ensures Keeps(c, b, c', b', 0, t)
  {
    hide Balance, Transfer, Claimed, LimitClaims, DcaClaims, ValidBook;
    var o := b.dcas[id];
    StoredDcaOf(b, id);
    EscrowPays(c, o.tokenIn, o.owner, o.remaining, c', t);
    StoredDcaValid(b, id, o.(remaining := 0, status := status), b.nextDca, b'.log);
    DcaUpdate(b, id, o.(remaining := 0, status := status), b'.log, t);
  }

  /** The swap of a fill: the owner is paid its whole output, and no other holder outside its routes sees it. */
  lemma SwapForOwnerPays(c: Chain, venues: set<(uint32, Address)>, owner: Address, tokenIn: Address, tokenOut: Address,
                         routes: seq<SubRoute>, minOut: int128, replies: seq<Reply>, c': Chain, out: Amount, t: Address, a: Address)
    requires Outsider(owner) && a != Escrow && Settlement.Outside(routes, Escrow, a)
    requires SwapForOwner(c, venues, owner, tokenIn, tokenOut, routes, minOut, replies) == Ok((c', out))
    ensures SwapRestricted(c, venues, {Escrow}, Escrow, tokenIn, tokenOut, routes, minOut, replies).Ok?
    ensures out == SwapRestricted(c, venues, {Escrow}, Escrow, tokenIn, tokenOut, routes, minOut, replies).value.1
    ensures Balance(c', t, a) == Balance(c, t, a) + Settlement.When(a == owner && t == tokenOut, out)
  {
    hide AggregatorModel.Swap, Transfer, Balance, Settlement.Outside, AllRegistered;
    var (c1, out1) := SwapRestricted(c, venues, {Escrow}, Escrow, tokenIn, tokenOut, routes, minOut, replies).value;
    Settlement.SwapMoves(c, {Escrow}, Escrow, tokenIn, tokenOut, routes, minOut, replies, c1, out1, t, a);
  }

  /** A fill pays the owner what its event says, which is all the swap returned, and touches no other holder outside its routes. */
  lemma FillPays(c: Chain, b: Book, venues: set<(uint32, Address)>, now: uint32, id: uint64, amountIn: int128,
                 routes: seq<SubRoute>, minOut: int128, replies: seq<Reply>, c': Chain, b': Book, t: Address, a: Address)
    requires ValidBook(b) && a != Escrow && Settlement.Outside(routes, Escrow, a)
    requires Fill(c, b, venues, now, id, amountIn, routes, minOut, replies) == Ok((c', b'))
    ensures id in b.limits
    ensures var o := b.limits[id];
            var swap := SwapRestricted(c, venues, {Escrow}, Escrow, o.tokenIn, o.tokenOut, routes, minOut, replies);
            && swap.Ok? && 0 < amountIn <= o.remaining && swap.value.1 > 0
            && b'.log == b.log + [Entry(now, LimitFilled(id, o.owner, amountIn, swap.value.1, o.remaining - amountIn))]
            && Balance(c', t, a) == Balance(c, t, a) + Settlement.When(a == o.owner && t == o.tokenOut, swap.value.1)
  {
    hide Balance, SwapForOwner, SwapRestricted, RoutedFrom, Settlement.Outside, RequiredMinOut;
    var o := b.limits[id];
    assert ValidLimit(o);
    var out := SwapForOwner(c, venues, o.owner, o.tokenIn, o.tokenOut, routes, minOut, replies).value.1;
    SwapForOwnerPays(c, venues, o.owner, o.tokenIn, o.tokenOut, routes, minOut, replies, c', out, t, a);
    SwapForOwnerAccount(c, venues, o.owner, o.tokenIn, o.tokenOut, routes, minOut, replies, c', out, t);
  }

  lemma FillDcaPays(c: Chain, b: Book, venues: set<(uint32, Address)>, now: uint32, id: uint64, routes: seq<SubRoute>,
                    minOut: int128, replies: seq<Reply>, c': Chain, b': Book, t: Address, a: Address)
    requires ValidBook(b) && a != Escrow && Settlement.Outside(routes, Escrow, a)
    requires FillDca(c, b, venues, now, id, routes, minOut, replies) == Ok((c', b'))
    ensures id in b.dcas
    ensures var o := b.dcas[id];
            var swap := SwapRestricted(c, venues, {Escrow}, Escrow, o.tokenIn, o.tokenOut, routes, minOut, replies);
            var spent := if o.remaining < o.chunk then o.remaining else o.chunk;
            && swap.Ok? && swap.value.1 > 0 && id in b'.dcas
            && b'.log == b.log + [Entry(now, DcaFilled(id, o.owner, spent, swap.value.1, o.remaining - spent, b'.dcas[id].next))]
            && Balance(c', t, a) == Balance(c, t, a) + Settlement.When(a == o.owner && t == o.tokenOut, swap.value.1)
  {
    hide Balance, SwapForOwner, SwapRestricted, RoutedFrom, Settlement.Outside, RequiredMinOut;
    var o := b.dcas[id];
    assert ValidDca(o);
    var out := SwapForOwner(c, venues, o.owner, o.tokenIn, o.tokenOut, routes, minOut, replies).value.1;
    SwapForOwnerPays(c, venues, o.owner, o.tokenIn, o.tokenOut, routes, minOut, replies, c', out, t, a);
    SwapForOwnerAccount(c, venues, o.owner, o.tokenIn, o.tokenOut, routes, minOut, replies, c', out, t);
  }

  /** A cancel or reclaim refunds the owner what its event says, and touches nobody else but the escrow. */
  lemma CloseLimitPays(c: Chain, b: Book, now: uint32, id: uint64, status: OrderStatus, c': Chain, b': Book, t: Address, a: Address)
    requires ValidBook(b) && id in b.limits && (status.Cancelled? || status.Expired?) && a != Escrow
    requires CloseLimit(c, b, now, id, status) == Ok((c', b'))
    ensures var o := b.limits[id];
            && b'.log == b.log + [Entry(now, if status.Cancelled? then LimitCancelled(id, o.owner, o.remaining)
                                             else LimitExpired(id, o.owner, o.remaining))]
            && Balance(c', t, a) == Balance(c, t, a) + Settlement.When(a == o.owner && t == o.tokenIn, o.remaining)
  {
    hide Balance, Transfer;
    assert ValidLimit(b.limits[id]);
  }

  lemma CloseDcaPays(c: Chain, b: Book, now: uint32, id: uint64, status: OrderStatus, c': Chain, b': Book, t: Address, a: Address)
    requires ValidBook(b) && id in b.dcas && (status.Cancelled? || status.Expired?) && a != Escrow
    requires CloseDca(c, b, now, id, status) == Ok((c', b'))
    ensures var o := b.dcas[id];
            && b'.log == b.log + [Entry(now, if status.Cancelled? then DcaCancelled(id, o.owner, o.remaining)
                                             else DcaExpired(id, o.owner, o.remaining))]
            && Balance(c', t, a) == Balance(c, t, a) + Settlement.When(a == o.owner && t == o.tokenIn, o.remaining)
  {
    hide Balance, Transfer;
    assert ValidDca(b.dcas[id]);
  }

  lemma FillKeeps(c: Chain, b: Book, venues: set<(uint32, Address)>, now: uint32, id: uint64, amountIn: int128,
                  routes: seq<SubRoute>, minOut: int128, replies: seq<Reply>, c': Chain, b': Book, t: Address)
    requires ValidBook(b)
    requires Fill(c, b, venues, now, id, amountIn, routes, minOut, replies) == Ok((c', b'))
    ensures Keeps(c, b, c', b', Settlement.RoutesExcess(routes, 0, replies, 0, t), t)
  {
    hide Balance, Transfer, Claimed, LimitClaims, DcaClaims, SwapForOwner, RoutedFrom, Amounts, Sum, Settlement.RoutesExcess;
    var o := b.limits[id];
    RoutedIsSum(routes);
    var out := SwapForOwner(c, venues, o.owner, o.tokenIn, o.tokenOut, routes, minOut, replies).value.1;
    SwapForOwnerAccount(c, venues, o.owner, o.tokenIn, o.tokenOut, routes, minOut, replies, c', out, t);
    LimitUpdate(b, id, b'.limits[id], b'.log, t);
  }

  lemma FillDcaKeeps(c: Chain, b: Book, venues: set<(uint32, Address)>, now: uint32, id: uint64, routes: seq<SubRoute>,
                     minOut: int128, replies: seq<Reply>, c': Chain, b': Book, t: Address)
    requires ValidBook(b)
    requires FillDca(c, b, venues, now, id, routes, minOut, replies) == Ok((c', b'))
    ensures Keeps(c, b, c', b', Settlement.RoutesExcess(routes, 0, replies, 0, t), t)
  {
    hide Balance, Transfer, Claimed, LimitClaims, DcaClaims, SwapForOwner, RoutedFrom, Amounts, Sum, Settlement.RoutesExcess;
    var o := b.dcas[id];
    RoutedIsSum(routes);
    var out := SwapForOwner(c, venues, o.owner, o.tokenIn, o.tokenOut, routes, minOut, replies).value.1;
    SwapForOwnerAccount(c, venues, o.owner, o.tokenIn, o.tokenOut, routes, minOut, replies, c', out, t);
    DcaUpdate(b, id, b'.dcas[id], b'.log, t);
  }
}
