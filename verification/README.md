# Settlement, indexing and bookkeeping of the LumAgg aggregator, in Dafny

The project models five parts of the repository and proves what holds over all their inputs and runs.

1. **Settlement.** The order escrow, the aggregator and the vault over one token ledger (`Ledger`, `AggregatorModel`,
   `Settlement`, `AggregatorContract`, `VaultModel`, `VaultContract`, `EscrowModel`, `EscrowContract`). Each entry point is a
   method of a class that either commits or leaves the state as it was, and is proved equal to a function of the state, the
   arguments and the venues' replies. `System` puts every entry point of the three contracts that
   changes something, but initialization and upgrade, and plain token payments into one machine; `Custody`, `Runs`, `Orders`,
   `OrderRuns` and `Holders` prove invariants of every interleaving of calls, down to the balance of every holder. `Success`
   says exactly when each entry point succeeds, `Refusal` what its error codes mean, and `Rights` who may change what.
2. **Split and pair arithmetic.** `Rescale` is the aggregator's proportional split, `Normalize` the bot's own copy of it,
   `Soroswap` the fee and quote with every saturating branch kept, `PairRoundTrip` the round trip through one pair.
3. **The indexer.** `OrderEvents` is the wire format and parser of escrow events; `Index`, `Ingest`, `Regress`, `Skip`,
   `SkipRuns` and `ReadOrder` are the order tables under polling, crashes, retries and backfills; `IndexRefines` ties the tables
   to the contract's own storage; `IndexStore` is the imperative database. `Legs`, `LegEvents`, `LegStore`, `Codec` and `LegAgreement` follow a trade from the
   bot's encoder through execution to leg rows built from two sources; `WireFormat` pins the formats between them. `Paging` is the history API.
4. **Two stateful structures.** `SimulationModel`, `SimulationRuns`, `SimulationCounts`, `SimulationPeaks` and
   `SimulationBook` are the bounded book with its round-robin flush; `RateLimiter` is the sliding-window limiter.
5. **The civil calendar.** `Calendar` proves the two closed forms against a recursive day count with the leap rule of
   ISO 8601:2004, section 3.2.1.

## Reading guide

Results that the code does not meet everywhere are stated with the exact condition or with a concrete input:

- **Backfills.** Runs whose backfills start at or before the stored cursor and do not die short of it converge
  (`Ingest.Convergence`). Over every run, with any backfills, the tables are right if and only if each order's events were read
  in an order that `ReadOrder.InOrder` spells out (`ReadOrder.AnyRunExactly`, `IndexRefines.IndexMirrorsExactly`). For one
  backfill of a kind that can go wrong, followed by polls, crashes, retries and safe backfills, the condition is about the
  ledgers it passed over or took back:
  - It dies in its first batch, short of the cursor: an open order can go back to an older state that later polls do not repair.
    `Regress.InterruptedBatchExactly` is about the tables right then, `SkipRuns.DiedShortExactly` about them later, and
    `Regress.BackfillCanRegress` is such a run.
  - It starts past the cursor and its first batch completes: the ledgers between are never read. The tables are clean again if
    and only if no order was created there, every order updated there was updated again in what was read, and every DCA order
    filled there was filled again (`SkipRuns.SkippedBackfillExactly`, `IndexRefines.SkippedOrdersExactly`, `SkipRuns.SkippedFillsAreLost`).
  - It starts past the cursor and dies in its first batch: polling still reads the ledgers between, and the tables become clean
    if and only if no DCA order was closed with an old due date (`SkipRuns.DiedAheadExactly`). The same holds when a later backfill
    goes back to where the gap began (`SkipRuns.GoneBackExactly`).
- **Pair quote.** `Soroswap.ProductFallsExactly` gives the exact condition for the product under saturation, and
  `Soroswap.MonotoneExactly` the exact range of inputs on which the quote is monotone; the output stays below the reserve for
  every input.
- **Bot split.** Raising vanishing shares to one unit can hand out more than the target, and the correction that follows never
  finds anything to take back (`Normalize.RaisingCanOverdraw`, `Normalize.TrimExcess`). The bot's split is the contract's if and
  only if no part but the last vanishes, sums to the target if and only if the last part can spare one unit for each part that
  does, and is accepted by the contract if and only if it keeps one of its own (`Normalize.NormalizedIsAllocation`,
  `Normalize.NormalizedSum`, `LegAgreement.PreparedLegValidates`).
- **Replayed legs.** A replay offers the rows to the event legs before the envelopes. If the envelopes cannot be fetched then,
  the stored output tokens are gone until a later replay, although the cursor advances (`LegStore.EventHalfTakesTokens`).
- **Limit price.** The overflow branch of the minimum output demands less than the limit for very large products
  (`OrderRuns.RequiredMinOutExact`, `OrderRuns.RequiredMinOutCanFallShort`); a fill pays its floored limit if and only if that is
  an amount at all (`OrderRuns.FairFillPaysExactly`).
- **Retained funds.** The documentation of `round_trip_swap` says the contract retains nothing. The aggregator's balance
  changes by exactly what venues deliver beyond what their arms report, and what they leave of the input the arms authorize.
  The first is zero for every arm that measures, the second for the Soroswap arm, which hands its input over itself, and both
  for every honest venue (`Settlement.SwapSettles`, `Settlement.RoundTripSettles`).
- **Calendar.** Month and day are checked one by one, so a 31st that a month lacks counts on into the next month
  (`Calendar.DaysOverrun`); days whose year leaves 32 bits do not survive the trip (`Calendar.CivilRoundTrip`).
- **Round-trip summary.** The `rt` event parser accepts six fields but reads the split flag from a seventh; six-field events
  count as unsplit.

Assumptions:

- Tokens are honest ledgers: a transfer moves exactly its amount or fails. Venue behaviour is an input, one reply per hop: the
  venue pays from its own balance whatever it pays, claims whatever it claims, and takes what its arm lets it take of the input:
  all of it (Soroswap), all or nothing in one authorized transfer (Aquarius, Phoenix, Sushi), or any part of an allowance
  (Comet). A venue is honest when it takes all and its claim, where the arm reads one, is what it paid.
- A called venue does not call back into the three contracts or the user (a host rule). The three deployed contracts sign
  nothing on their own, and a call's authorization is the set of addresses that signed it.
- The contracts are initialized, and the vault and the escrow call this aggregator.
- Ledgers of the event feed are served whole and in order; each SQLite statement and each transaction is atomic; one indexer
  process runs at a time.
- Arithmetic on machine integers traps on overflow, as the release profile sets; sums over `u128` amounts in the bot fit.

## Model

| member | source | states |
|---|---|---|
| Rescale.AllocationIsProportional | contracts/aggregator/src/math.rs:33-77 | The split sums to the target; every part but the last is its exact share rounded down; the last exceeds its share by less than n - 1 (equals it for one part) |
| Rescale.AllocationPositivity | contracts/aggregator/src/math.rs:58-74 | Every part is between zero and the target, and is zero exactly when it is not the last and weight * target is below the weight sum |
| Rescale.AllocationIdentity | contracts/aggregator/src/math.rs:36-77 | Splitting the weight sum itself gives the weights back |
| Rescale.ScaleSubRoutesIsAllocation | contracts/aggregator/src/math.rs:36-77 | The checked loop succeeds exactly when weights are positive, nothing overflows and no share vanishes, and then it is the proportional split with the steps kept |
| Rescale.ScaleFailsOnlyOnVanishingShare | contracts/aggregator/src/math.rs:36-77 | With positive weights and no overflow it fails exactly when some part before the last has weight * target below the weight sum |
| Rescale.ScaledRoutesAreExact | contracts/aggregator/src/round_trip.rs:23-28 | On success all amounts are positive and sum exactly to the actual total |
| Rescale.ScaleInLoops | contracts/aggregator/src/math.rs:36-77 | The two loops with their accumulators return what the recursive definition does, errors included |
| Normalize.NormalizeSubOrderAmounts | crates/arbitrage/src/invoke.rs:196-230 | In place, the amounts become the bot's normalization of the old ones, early returns included |
| Normalize.RaisedShareMeans | crates/arbitrage/src/invoke.rs:213-222 | A share is weight * target, saturating at 128 bits, over the weight sum, rounded down, but at least one |
| Normalize.NormalizedSum | crates/arbitrage/src/invoke.rs:213-230 | For positive weights whose products fit: the normalized amounts sum to the target if and only if the contract's last part has at least one unit for each part that vanishes, and the last amount is what it has left |
| Normalize.WithoutWeights | crates/arbitrage/src/invoke.rs:196-212 | Without a target nothing changes, and of weights that are all zero a single one takes the whole target and several stay |
| Normalize.RaisingCanOverdraw | crates/arbitrage/src/invoke.rs:213-222 | Weights 1, 1, 1000 and target 1 give 1, 1, 0: more than the target |
| Normalize.TrimExcess | crates/arbitrage/src/invoke.rs:223-229 | The correction for excess never changes an amount |
| Normalize.NormalizedIsAllocation | crates/arbitrage/src/invoke.rs:196-231 | For positive weights whose products fit: the bot's split is the contract's split if and only if every weight but the last times the target reaches the weight sum |
| Normalize.PrepareRoundTripRoutes | crates/arbitrage/src/invoke.rs:238-260 | The out amounts are normalized to the input; each back weight is the paired quoted output when counts match and it is positive, the old one otherwise, and never zero; quoted outputs are untouched |
| Normalize.PreparedOutPassesSumCheck | crates/arbitrage/src/invoke.rs:233-260 | The prepared out leg is positive and sums to the input if and only if the quoted amounts already did, or fewer parts vanish than the contract's last part has units |
| LegAgreement.PreparedLegValidates | contracts/aggregator/src/validate.rs:7-45 | The contract's own validation of the prepared out leg, with connected steps, returns the input amount under exactly that condition |
| Soroswap.Fee | contracts/aggregator/src/math.rs:8-17 | The fee is three thousandths rounded up, positive and at most the input |
| Soroswap.OutputBelowReserve | contracts/aggregator/src/math.rs:20-31 | The quote never reaches the output reserve, saturating or not |
| Soroswap.ProductNeverFalls | contracts/aggregator/src/math.rs:20-31 | (R_in + in - fee) * (R_out - out) >= R_in * R_out while the denominator is representable |
| Soroswap.ProductFallsExactly | contracts/aggregator/src/math.rs:28-30 | For all positive inputs, the product holds if and only if the denominator is representable, or the numerator stays below the saturated one, or it reaches the denominator's true value |
| Soroswap.SaturatedDenominatorBreaksProduct | contracts/aggregator/src/math.rs:29 | A concrete input for which the product falls |
| Soroswap.OutputMonotone | contracts/aggregator/src/math.rs:20-31 | More input never buys less while the larger numerator is representable, whether or not the denominator saturates |
| Soroswap.MonotoneExactly | contracts/aggregator/src/math.rs:20-31 | The quote is monotone on all inputs up to A if and only if A stays short of the numerator's saturation, or the saturated divisor at A still admits the larger of the two quotes around it |
| Soroswap.SaturatedNumeratorBreaksMonotonicity | contracts/aggregator/src/math.rs:28 | A concrete pair of inputs where more input buys less |
| Soroswap.ThereAndBackLoses | contracts/aggregator/src/math.rs:8-31 | Swapping x and swapping the result back on the updated pair returns strictly less than x |
| PairRoundTrip.OnePairRoundTripFails | contracts/aggregator/src/round_trip.rs:33-84 | A single-route round trip out and back through one pair never succeeds |
| Settlement.SwapSettles | contracts/aggregator/src/swap.rs:19-60 | A successful swap takes exactly the routed input from the user and pays exactly the returned total, at least the minimum; the aggregator keeps exactly what venues overpay and what they do not take; for any routes, hops and repeated tokens |
| Settlement.RoundTripSettles | contracts/aggregator/src/round_trip.rs:33-84 | The same for a round trip: the user pays the input and gets the base total, at least the minimum, at least the input |
| Settlement.SwapLeavesNothing | contracts/aggregator/src/swap.rs:19-89 | With honest venues a swap leaves the aggregator's balance in every token as before |
| Settlement.RoundTripLeavesNothing | contracts/aggregator/src/round_trip.rs:43-84 | With honest venues a round trip leaves it as before too |
| Settlement.HopsAccount | contracts/aggregator/src/invoke.rs:19-44 | Along a path, what one hop reports is what the next spends: the aggregator's balance moves by the input, the output, and what venues overpay or do not take |
| Settlement.HopReports | contracts/aggregator/src/invoke.rs:72-314 | What a successful hop reports, arm by arm: Aquarius and Comet the venue's number as a signed 128-bit value, Phoenix and Sushi what arrived whatever the venue claims, Soroswap what arrived, or nothing where the pair quotes nothing |
| Settlement.HopMoves | contracts/aggregator/src/invoke.rs:72-314 | What it does to every holder in every token: the aggregator hands over what the venue takes and gets what it delivers, and nobody else is touched |
| Settlement.SwapMoves | contracts/aggregator/src/swap.rs:19-60 | A swap charges the user the input and pays it the output; no other holder that is not a venue of its routes sees it |
| Settlement.RoundTripMoves | contracts/aggregator/src/round_trip.rs:33-84 | A round trip pays the user the difference; no other holder that is not a venue of its routes sees it |
| Success.HopSucceeds | contracts/aggregator/src/invoke.rs:72-314 | A hop between different tokens succeeds exactly when a foreign contract answers it and, unless its pair quotes nothing, the venue takes what its arm lets it take and both sides have what they pay and room for what they get |
| Success.PathSucceeds | contracts/aggregator/src/invoke.rs:19-58 | A path runs to a result exactly when the amount is positive and there is a sequence of hops that leads there, each with different tokens and indices and a positive output, and each with its event under its number |
| Success.SwapSucceeds | contracts/aggregator/src/swap.rs:19-60 | A swap succeeds exactly when the user signed, the tokens differ, the minimum is positive, the routes are valid, the user has the input, the hops return the minimum, the user can hold it, and no venue's claim runs ahead of its payment by more than the aggregator holds |
| Success.RestrictedSwapSucceeds | contracts/aggregator/src/lib.rs:91-104 | A restricted swap succeeds exactly when that swap does and every venue is registered under its type |
| Success.RoundTripSucceeds | contracts/aggregator/src/round_trip.rs:33-84 | The same for a round trip: both legs valid, the out leg's amounts the input, the minimum at least the input, both legs run, the back leg rescaled, and the payment can be made |
| Refusal.SwapRefusalMeans | contracts/aggregator/src/swap.rs:19-89 | What each error code of a refused swap says of its arguments, routes and output |
| Refusal.RestrictedRefusalMeans | contracts/aggregator/src/validate.rs:47-57 | A restricted swap is refused for its venues exactly when one of them is not registered, and otherwise is the swap |
| Refusal.RoundTripRefusalMeans | contracts/aggregator/src/round_trip.rs:33-84 | What each error code of a refused round trip says |
| Refusal.ScalingRefusalMeans | contracts/aggregator/src/math.rs:36-77 | With which codes the rescaling refuses |
| Settlement.ValidateMeans | contracts/aggregator/src/validate.rs:7-45 | Validation succeeds exactly for non-empty lists of positive, non-empty, connected routes from token to token whose sum is representable, and returns the sum |
| AggregatorContract.AggregatorContract.ValidateSubRoutes | contracts/aggregator/src/validate.rs:7-45 | The loops over routes and steps return what the validation function does, error by error |
| AggregatorContract.AggregatorContract.ValidateRegisteredVenues | contracts/aggregator/src/validate.rs:47-57 | Succeeds exactly when every step's venue is registered |
| AggregatorContract.AggregatorContract.ExecuteStepInner | contracts/aggregator/src/invoke.rs:72-314 | One hop on the host: input taken as far as the arm lets the venue, output paid, and the number the arm reports, trusted or measured |
| AggregatorContract.AggregatorContract.ExecutePath | contracts/aggregator/src/invoke.rs:19-44 | The loop over hops equals the recursive path execution, hop numbers and maximum depth included |
| AggregatorContract.AggregatorContract.ExecuteSubRoutes | contracts/aggregator/src/swap.rs:69-89 | The loop over routes equals the recursive execution, with the output sum and the hop counter |
| AggregatorContract.AggregatorContract.Swap | contracts/aggregator/src/swap.rs:19-60 | The entry point commits the swap function's ledger and events or restores everything |
| AggregatorContract.AggregatorContract.SwapRestricted | contracts/aggregator/src/lib.rs:91-104 | The same over registered venues only |
| AggregatorContract.AggregatorContract.RoundTripSwap | contracts/aggregator/src/round_trip.rs:33-84 | The entry point commits the round-trip function's ledger and events or restores everything |
| VaultModel.LendingAccount | contracts/vault/src/execute.rs:14-60 | A successful lending adds exactly base total - principal, never negative, to the vault, leaves the caller and the escrow unchanged in every token, and leaves the caller's allowance at the maximum less the base total |
| VaultModel.ReclaimIsAllowed | contracts/vault/src/execute.rs:33-58 | After the trade the maximal allowance still covers the reclaim |
| VaultModel.LendingMoves | contracts/vault/src/execute.rs:14-60 | No holder but the vault and the aggregator has another balance after a lending, unless it is a venue of its routes |
| Success.LendingSucceeds | contracts/vault/src/execute.rs:14-60 | A lending succeeds exactly when an allow-listed caller signed it, asks back at least the principal, the allowance has not expired, the principal is there, the trade succeeds and the vault can hold what comes back; the reclaim cannot lack anything else |
| Success.DepositSucceeds | contracts/vault/src/execute.rs:7-12 | A deposit succeeds exactly for a signed, positive amount that the depositor has and the vault can hold |
| Success.WithdrawSucceeds | contracts/vault/src/admin.rs:37-42 | A withdrawal succeeds exactly for the administrator and a positive amount that the vault has and the receiver can hold |
| Refusal.LendingRefusalMeans | contracts/vault/src/execute.rs:14-60 | What each of the vault's error codes says |
| VaultContract.VaultContract.Deposit | contracts/vault/src/execute.rs:7-12 | Commits a positive deposit or restores everything |
| VaultContract.VaultContract.ExecuteRoundTrip | contracts/vault/src/execute.rs:14-60 | The approve, transfer, trade and reclaim steps on the host equal the lending function, with rollback |
| EscrowContract.EscrowContract.CreateLimit | contracts/order-escrow/src/lib.rs:146-209 | Stores the order, takes the tokens, hands out the next id and publishes, or restores everything |
| EscrowContract.EscrowContract.Cancel | contracts/order-escrow/src/lib.rs:211-231 | Refunds the remainder and closes the order, or restores everything |
| EscrowContract.EscrowContract.ReclaimExpired | contracts/order-escrow/src/lib.rs:233-255 | The same after expiry, for anyone |
| EscrowContract.EscrowContract.Fill | contracts/order-escrow/src/lib.rs:257-315 | Swaps for the owner, pays the proceeds, lowers the remainder and sets the status, or restores everything |
| EscrowContract.EscrowContract.CreateDca | contracts/order-escrow/src/lib.rs:317-398 | Stores a DCA order after its checks in order, or restores everything |
| EscrowContract.EscrowContract.FillDca | contracts/order-escrow/src/lib.rs:400-474 | Spends the due chunk, moves the due date with saturation, or restores everything |
| EscrowContract.EscrowContract.CancelDca | contracts/order-escrow/src/lib.rs:476-498 | Refunds and closes a DCA order, or restores everything |
| EscrowContract.EscrowContract.ReclaimExpiredDca | contracts/order-escrow/src/lib.rs:500-524 | The same after expiry |
| Success.CreateLimitSucceeds | contracts/order-escrow/src/lib.rs:146-209 | A limit order is created exactly when its owner signed, amounts and limit are positive, the tokens differ, it expires within the next 518,400 ledgers, the owner has the input, the escrow can hold it, and an id is left |
| Success.CreateDcaSucceeds | contracts/order-escrow/src/lib.rs:317-398 | A DCA order likewise, with a chunk of at most the amount, a positive interval, a start not in the past and before the expiry, and a rate that is not negative |
| Success.CloseLimitSucceeds | contracts/order-escrow/src/lib.rs:211-255 | A cancel succeeds exactly when the owner of an open order signed it and the refund can be paid, a reclaim exactly after the expiry of one whose refund can be paid |
| Success.CloseDcaSucceeds | contracts/order-escrow/src/lib.rs:476-524 | The same for DCA orders |
| Success.FillSucceeds | contracts/order-escrow/src/lib.rs:257-315 | A fill succeeds exactly when the order is open and not expired, the amount is positive, at most what is left and what the routes add up to, the minimum meets the price, the swap succeeds, and the owner can hold the proceeds |
| Success.FillDcaSucceeds | contracts/order-escrow/src/lib.rs:400-474 | A DCA fill succeeds exactly when the order is open, due and not expired, the routes add up to the chunk due, the minimum meets the rate, or is positive where there is none, the swap succeeds, and the owner can hold the proceeds |
| Refusal.FillRefusalMeans | contracts/order-escrow/src/lib.rs:257-302 | What each of the escrow's error codes says of a refused fill |
| Refusal.FillDcaRefusalMeans | contracts/order-escrow/src/lib.rs:400-454 | The same for a DCA fill |
| Refusal.CreationRefusalMeans | contracts/order-escrow/src/lib.rs:146-209 | The same for the creation of a limit order |
| Refusal.DcaCreationRefusalMeans | contracts/order-escrow/src/lib.rs:317-398 | The same for the creation of a DCA order |
| Refusal.CloseRefusalMeans | contracts/order-escrow/src/lib.rs:211-255 | The same for cancels and reclaims |
| Custody.FillPays | contracts/order-escrow/src/lib.rs:296-314 | A fill pays the owner, in the token asked for, the swap's whole output, which is also what its event says; every other holder outside the escrow, the aggregator and the routes keeps its balance |
| Custody.FillDcaPays | contracts/order-escrow/src/lib.rs:448-473 | The same for a DCA fill of the chunk due |
| Custody.CloseLimitPays | contracts/order-escrow/src/lib.rs:211-255 | A cancel or reclaim pays the owner the remainder its event says, and nobody else |
| Custody.CloseDcaPays | contracts/order-escrow/src/lib.rs:476-524 | The same for DCA orders |
| Custody.FillKeeps | contracts/order-escrow/src/lib.rs:257-315 | A fill keeps the book valid and the escrow's balance beyond all claims unchanged in every token; the aggregator gains only what venues overpay or do not take |
| Custody.FillDcaKeeps | contracts/order-escrow/src/lib.rs:400-474 | The same for a DCA fill |
| Custody.CreateLimitKeeps | contracts/order-escrow/src/lib.rs:146-209 | A creation adds its claim and its tokens alike |
| Custody.CreateDcaKeeps | contracts/order-escrow/src/lib.rs:317-398 | The same for a DCA creation |
| Custody.CloseDcaKeeps | contracts/order-escrow/src/lib.rs:476-524 | A DCA cancel or reclaim removes its claim and its tokens alike |
| Custody.CloseLimitKeeps | contracts/order-escrow/src/lib.rs:211-255 | A cancel or reclaim removes its claim and its tokens alike |
| Runs.RunAccounted | contracts/order-escrow/src/lib.rs:146-524 | Over any interleaving of all calls: the escrow's spare balance changes only by gifts, the aggregator's by gifts, overpayment and input not taken, the vault's by gifts, withdrawals and trading surplus |
| Runs.EscrowSolvent | contracts/order-escrow/src/lib.rs:146-524 | After any run the escrow holds, in every token, at least the sum of all remainders, and exactly its first balance plus gifts beyond them |
| Runs.OpenOrdersRefundable | contracts/order-escrow/src/lib.rs:211-255 | After any run a cancel, and after expiry a reclaim, of an open order succeeds if and only if the owner's balance can take the refund |
| Runs.OpenDcasRefundable | contracts/order-escrow/src/lib.rs:476-524 | The same for DCA orders |
| Runs.VaultNeverLoses | contracts/vault/src/execute.rs:14-60 | Over any run without admin withdrawals the vault's balance in every token never falls |
| Runs.AggregatorKeepsNothing | contracts/aggregator/src/round_trip.rs:7-12 | Over any run with honest venues the aggregator's balance changes only by payments made to it directly |
| Holders.HolderAccounted | contracts/order-escrow/src/lib.rs:146-524 | The whole account of every holder outside the contracts over any run: its balance in each token is what it was, plus what the escrow's log says it received less what it put into orders, plus the gains of its own trades and what it was paid, less what it paid; for a contract, as long as no route uses it as a venue |
| Holders.LimitOwnerIsPaid | contracts/order-escrow/src/lib.rs:257-315 | In any run what the log says a limit order received is credited to its owner in the token asked for, refunds less the input in the token put in, and nothing of it to anybody else |
| Holders.DcaOwnerIsPaid | contracts/order-escrow/src/lib.rs:400-474 | The same for DCA orders |
| Holders.UnsignedNeverLoses | contracts/aggregator/src/swap.rs:19-60 | Over any run in which a holder signs no call, no balance of it falls |
| Rights.LimitOrderMoves | contracts/order-escrow/src/lib.rs:211-315 | Whatever is called, a limit order changes only while open, and only by a fill before its expiry, a cancel its owner signed, or a reclaim after its expiry, and then exactly so |
| Rights.DcaOrderMoves | contracts/order-escrow/src/lib.rs:400-524 | The same for DCA orders, with the next due date |
| Rights.AdminOnly | contracts/vault/src/admin.rs:23-42 | Only the administrator changes the registry of venues and the list of callers, one entry at a time, and only the administrator's withdrawals lower a balance of the vault |
| OrderRuns.RunRecorded | contracts/order-escrow/src/lib.rs:146-524 | After any run every stored order agrees with its own history in the event log |
| OrderRuns.LimitOrderAccount | contracts/order-escrow/src/lib.rs:146-315 | Per order: put in = filled + refunded + remaining; open if and only if something remains; nothing refunded while open or filled |
| OrderRuns.DcaOrderAccount | contracts/order-escrow/src/lib.rs:317-524 | The same for DCA orders |
| OrderRuns.LimitPriceHolds | contracts/order-escrow/src/lib.rs:257-314 | In any run, each fill of an order pays its floored limit if and only if that is an amount; when it is for each of the k fills, received * 10,000,000 + k * 9,999,999 is at least spent * limit; and at least one unit a fill, always |
| OrderRuns.FairFillPaysExactly | contracts/order-escrow/src/lib.rs:92-97 | A checked fill pays the floored limit if and only if the floored limit is at most the largest amount |
| OrderRuns.LimitPrice | contracts/order-escrow/src/lib.rs:92-97 | While the product fits, the required minimum m is the largest with m * 10,000,000 at most input * rate; beyond that it is the largest amount |
| OrderRuns.RequiredMinOutExact | contracts/order-escrow/src/lib.rs:92-97 | The required minimum is the floored limit if and only if the product fits or the quotient is the largest amount |
| OrderRuns.RequiredMinOutCanFallShort | contracts/order-escrow/src/lib.rs:92-97 | A concrete product for which it demands less |
| OrderRuns.DcaPriceHolds | contracts/order-escrow/src/lib.rs:400-474 | In any run each DCA fill pays at least one unit, and with a minimum rate the same bounds hold as for limit orders |
| OrderRuns.DcaPacing | contracts/order-escrow/src/lib.rs:400-474 | Fill i is no earlier than start + i * interval and before expiry; k fills spent min(k * chunk, amount); by any ledger at most one chunk per interval begun; saturation never lets an extra fill in |
| OrderRuns.ClosedOrdersStayClosed | contracts/order-escrow/src/lib.rs:211-524 | Whatever is called afterwards, a closed order never changes; terms never change; remainders never grow |
| OrderRuns.WindowsNeverMeet | contracts/order-escrow/src/lib.rs:233-315 | Every fill lies before the expiry ledger and every refund for expiry after it |
| OrderEvents.ParseOfOnWire | crates/analytics-indexer/src/order_events.rs:83-180 | Every event the escrow publishes parses to the order, change, ledger and time it announced |
| WireFormat.ParsesExactly | crates/analytics-indexer/src/order_events.rs:83-180 | An event is taken exactly when it is a contract event of a call that did not fail, its topic is a name and an order id, and its data have the number and kinds of fields of that name |
| WireFormat.ReadsLimitEvents | crates/analytics-indexer/src/order_events.rs:83-180 | What each limit event says, by its name and its fields in their places, and when |
| WireFormat.ReadsDcaEvents | crates/analytics-indexer/src/order_events.rs:83-180 | The same for DCA events |
| ScVal.I128RoundTrip | crates/analytics-indexer/src/order_events.rs:425-432 | High and low words carry the whole 128-bit range, both ways |
| Decimal.ParseOfToString | crates/api-server/src/swaps.rs:62-77 | Parsing inverts printing for every 64-bit number |
| Decimal.IsDecimal | crates/analytics-indexer/src/order_events.rs:363-369 | The text of a number is its decimal digits, with a minus sign for negative ones |
| Decimal.ZeroText | crates/analytics-indexer/src/order_events.rs:363-369 | The text "0" is the text of zero alone, so the stored status follows the amount |
| Index.FoldIsRowFold | crates/analytics-indexer/src/order_events.rs:330-361 | Each row evolves by its own events alone |
| Index.ReplayRow | crates/analytics-indexer/src/store.rs:812-915 | Replaying events s to e on a row as of event m >= s gives the row as of e, or, short of m, possibly leaves it as of m |
| Ingest.FetchIsRange | crates/analytics-indexer/src/ingest.rs:217-222 | A fetch of a sorted feed is exactly the events whose ledger is in range |
| Ingest.SafeBatchIsSound | crates/analytics-indexer/src/ingest.rs:47-82 | A batch from at or before the cursor that completes, or dies at or beyond the cursor, keeps every row between the cursor and the furthest event applied |
| Ingest.Convergence | crates/analytics-indexer/src/ingest.rs:45-82 | From a clean state, any polls, crashes, retries and backfills that start at or before the cursor and do not die short of it leave, once the cursor is past every ledger aimed at, exactly the tables of one clean pass |
| Ingest.PollReaches | crates/analytics-indexer/src/ingest.rs:45-82 | An undisturbed turn below the latest ledger applies the events of the next 10,000 ledgers, or up to the latest |
| Ingest.PollingRecovers | crates/analytics-indexer/src/ingest.rs:45-82 | After any such disturbed run, enough undisturbed polls reach the clean pass and cursor of the latest ledger |
| Regress.InterruptedRow | crates/analytics-indexer/src/ingest.rs:443-462 | A replay that stops below the cursor takes exactly the rows that are open there and were updated in the replayed part back to where the replay stopped |
| Regress.InterruptedBatchExactly | crates/analytics-indexer/src/ingest.rs:443-462 | Such a batch keeps the tables clean if and only if no order open at the cursor and updated in the replayed part has changed since |
| Regress.BackfillCanRegress | crates/analytics-indexer/src/ingest.rs:443-462 | A concrete run: two fills, a backfill that dies between them, and a row that stays wrong however often the indexer polls |
| Skip.SkippedRow | crates/analytics-indexer/src/ingest.rs:443-462 | The exact row left by reading on past a gap: as of what was read if the gap left the order alone, missing if the gap created it, untouched if nothing was read for it, and otherwise up to date but for a due date announced in the gap |
| SkipRuns.SkippedBackfillExactly | crates/analytics-indexer/src/ingest.rs:443-462 | After a backfill from past the cursor whose first batch completes, and any polls, crashes, retries and safe backfills past the gap, every row is as of reading on past the gap, and the tables are the clean pass if and only if every order is caught up |
| Skip.CaughtUpMeans | crates/analytics-indexer/src/store.rs:865-915 | On a feed that repeats nothing, caught up means: not created in the gap, updated again if updated there, and filled again if filled there as a DCA order |
| SkipRuns.DiedShortExactly | crates/analytics-indexer/src/ingest.rs:443-462 | After a backfill that dies in its first batch short of the cursor, and any polls, crashes, retries and safe backfills past the cursor, the tables are the clean pass if and only if every open order the replay took back is caught up by what was read since |
| SkipRuns.DiedAheadExactly | crates/analytics-indexer/src/ingest.rs:443-462 | After a backfill from past the cursor that dies in its first batch, and any polls, crashes, retries and safe backfills, the tables are the clean pass if and only if no DCA order whose due date moved in the gap was closed without another fill |
| SkipRuns.GoneBackExactly | crates/analytics-indexer/src/ingest.rs:443-462 | After a gap was passed over, a backfill from its beginning or before, and any such run after that, the tables are the clean pass under the same condition |
| SkipRuns.SkippedFillsAreLost | crates/analytics-indexer/src/ingest.rs:443-462 | A concrete run: a backfill past two fills, which then never reach the tables however often the indexer polls |
| ReadOrder.RunAppliesReads | crates/analytics-indexer/src/ingest.rs:45-82 | A run of polls, crashes, retries and backfills applies the events it reads, in that order and as often, and nothing else |
| ReadOrder.RightIsClean | crates/analytics-indexer/src/store.rs:812-915 | Whatever else is read, an order's row is right if its creation, the event with its last due date and its last event were read in this order, with no other due date between the last two; with no update afterwards while the order is open, and with its closing event not already read since the creation once it is closed |
| ReadOrder.AlikeIsRight | crates/analytics-indexer/src/store.rs:812-915 | On a feed that repeats nothing, only then are even its remainder, status and due date right |
| ReadOrder.RowStamps | crates/analytics-indexer/src/store.rs:812-915 | A row carries the ledger and time of its order's last event, and a limit row also those of its creation |
| ReadOrder.AnyRunExactly | crates/analytics-indexer/src/ingest.rs:443-462 | For every run of the indexer from empty tables and any cursor, safe or not, the tables are one clean pass past all it read if and only if every order was read so |
| IndexStore.IndexStore.UpsertCreatedFor | crates/analytics-indexer/src/store.rs:812-851 | Inserts an open row unless the key has one |
| IndexStore.IndexStore.ApplyFilledFor | crates/analytics-indexer/src/store.rs:865-890 | Updates an open row and reports whether there was one |
| IndexStore.IndexStore.ApplyClosedFor | crates/analytics-indexer/src/store.rs:900-915 | Closes an open row and reports whether there was one |
| IndexStore.IndexStore.ApplyDcaClosedFor | crates/analytics-indexer/src/store.rs:1076-1090 | The DCA twin refuses other statuses and otherwise does the same |
| IndexStore.IndexStore.ApplyParsedOrderEvent | crates/analytics-indexer/src/order_events.rs:184-300 | Each parsed event has exactly the effect of the table function on both tables |
| IndexStore.IndexStore.IngestEscrowOrderEvents | crates/analytics-indexer/src/order_events.rs:330-361 | The loop folds the events it lives to see, in order, and counts the applied ones |
| IndexStore.IndexStore.Poll | crates/analytics-indexer/src/ingest.rs:45-82 | One turn of the loop: whole batch and cursor, or part of the batch and no cursor |
| IndexStore.IndexStore.Backfill | crates/analytics-indexer/src/ingest.rs:443-462 | The backfill loop over batches, wherever it dies |
| IndexRefines.HistoryRow | crates/analytics-indexer/src/order_events.rs:184-300 | Folding the feed leaves for each order the row its own history tells |
| IndexRefines.FeedIsConsistent | crates/analytics-indexer/src/order_events.rs:83-180 | In the escrow's own feed no update precedes its creation |
| IndexRefines.FeedIsOrderly | contracts/order-escrow/src/lib.rs:197-522 | In the escrow's own feed an order is created once and updated only while it is open |
| IndexRefines.FeedIsTelling | contracts/order-escrow/src/lib.rs:257-474 | In it every update leaves less of the order, and every fill of a DCA order that stays open announces a later due date |
| IndexRefines.SkippedOrdersExactly | crates/analytics-indexer/src/ingest.rs:443-462 | For every run of the contracts, a backfill past the cursor ends in the clean pass if and only if the gap created no order and whatever it updated or filled was updated or filled again |
| IndexRefines.FoldMirrors | crates/analytics-indexer/src/order_events.rs:184-300 | After any run of the contracts the folded tables have a row for every order and no other, with the stored owner, tokens, remainder, rate or chunk, expiry, due date and status |
| IndexRefines.FeedIsSorted | crates/analytics-indexer/src/ingest.rs:217-222 | Transactions landing in order give a sorted feed |
| IndexRefines.IndexShowsOrders | crates/analytics-indexer/src/ingest.rs:45-82 | Whatever crashes, retries and safe backfills happened, polling past the last event shows exactly the contract's orders |
| IndexRefines.IndexMirrorsExactly | crates/analytics-indexer/src/ingest.rs:443-462 | For every run of the contracts and every run of the indexer, whatever its polls, crashes, retries and backfills, the tables are exactly the contract's orders if and only if every order was read so |
| Legs.SameSource | crates/analytics-indexer/src/events.rs:263-272 | The name from the event tag is the name from the argument symbol |
| WireFormat.VenueNames | crates/analytics-indexer/src/events.rs:263-272 | The number, contract name and indexed name of each of the five venues, on both sides |
| Legs.SwapEmits | contracts/aggregator/src/swap.rs:62-89 | A successful swap emits in order the hop, venue, pool and token sequence of its arguments, then its summary |
| Legs.RoundTripEmits | contracts/aggregator/src/round_trip.rs:43-84 | A successful round trip does too, the back leg continuing after the longest path out |
| LegEvents.BuildInvocations | crates/analytics-indexer/src/events.rs:17-93 | One record per transaction with a summary, made of its own events however transactions interleave; any malformed event refuses the batch |
| WireFormat.ReadsLegs | crates/analytics-indexer/src/events.rs:150-180 | The three leg formats, field by field, and what each leaves unknown |
| WireFormat.ReadsSummaries | crates/analytics-indexer/src/events.rs:112-148 | The summary formats; a round trip without a split flag counts as unsplit |
| WireFormat.ReadsBundles | crates/analytics-indexer/src/events.rs:17-93 | Which event gives a transaction its summary, which a leg, and what status, ledger and time its record has |
| LegEvents.RecordOfCall | crates/analytics-indexer/src/events.rs:115-180 | The record of one call has the summary's numbers and one leg row per leg event, in order |
| LegStore.RowsMatch | crates/analytics-indexer/src/store.rs:418-482 | Every enriched row is the leg of the arguments, with the amounts and flag of a stored row of the same place, venue and pool where there is one and as far as it knows them |
| LegStore.SameOrderMatches | crates/analytics-indexer/src/store.rs:470-481 | With equal key sequences every leg takes its own stored row |
| LegStore.SameKeysKeepAmounts | crates/analytics-indexer/src/store.rs:470-481 | With equal key multisets, in any order, the multiset of keyed amounts and flags is preserved |
| LegStore.ReplaceTwice | crates/analytics-indexer/src/store.rs:418-482 | Enriching twice in a row from the same arguments is enriching once |
| LegStore.ReplayedBatch | crates/analytics-indexer/src/ingest.rs:124-200 | A whole replayed batch, the event legs and then the envelope's, leaves the rows as they were |
| LegStore.EventHalfTakesTokens | crates/analytics-indexer/src/ingest.rs:124-200 | The event half alone keeps every amount and flag and replaces the tokens by those of the events |
| LegStore.RoundTripLegsAgree | crates/analytics-indexer/src/store.rs:470-481 | For every successful round trip, event rows enriched from the legs its arguments name match leg by leg and keep every measured amount, and a replay of the batch restores them |
| LegStore.SwapLegsAgree | crates/analytics-indexer/src/store.rs:470-481 | The same for swaps |
| LegStore.LegStore.InsertInvocation | crates/analytics-indexer/src/store.rs:375-408 | Writes the record and its legs for a new transaction only |
| LegStore.LegStore.ReplaceInvocationLegs | crates/analytics-indexer/src/store.rs:420-483 | The greedy loop over remaining stored rows equals the matching function, and the header keeps its known output |
| LegAgreement.EncodedRoundTripAgrees | crates/analytics-indexer/src/parser.rs:383-435 | From the encoder to the rows: the record from events and the parsed call agree on all fields, and the enriched rows carry each hop's measured input |
| LegAgreement.ExecutedSwapAgrees | crates/analytics-indexer/src/parser.rs:342-381 | For every executed swap, the record from events and the call its arguments parse to agree on all fields, and the enriched rows carry each hop's measured input |
| Codec.BuildRoundTripSwapOp | crates/arbitrage/src/invoke.rs:297-352 | Refuses exactly the calls the checks refuse first, and otherwise encodes the prepared routes |
| Codec.CallEncodesExactly | crates/arbitrage/src/invoke.rs:122-352 | A prepared call encodes if and only if the checks pass, parts and step sets pair up, venues are known, pools and tokens are contracts, and vectors fit; and then it calls the aggregator's round trip with the user, tokens, input and minimum in their places |
| Codec.SourceUpToMerge | crates/arbitrage/src/invoke.rs:26-36 | Exactly the six router names are known, and they survive, except that concentrated-liquidity Aquarius merges into Aquarius |
| Codec.ParseRoundTripSwap | crates/analytics-indexer/src/parser.rs:383-435 | The loops over both leg arguments return what the recursive parser does |
| Codec.ParseSwap | crates/analytics-indexer/src/parser.rs:342-381 | The same for swaps, with the saturating total |
| WireFormat.EncodedMapsAreSorted | crates/arbitrage/src/invoke.rs:122-190 | The maps of an encoded step and route have their keys in strict order, as the host demands |
| WireFormat.EncodedFields | crates/arbitrage/src/invoke.rs:122-190 | They have exactly the contract's field names, each with its value |
| Codec.StepComesBack | crates/analytics-indexer/src/parser.rs:438-471 | An encoded step parses to its pool, tokens and venue name |
| WireFormat.ReadsBareStep | crates/analytics-indexer/src/parser.rs:438-471 | A step that lacks fields still counts as a hop, of an unknown venue |
| WireFormat.ExtraArguments | crates/analytics-indexer/src/parser.rs:342-435 | Arguments beyond the known ones are ignored, and a call with fewer is refused |
| Codec.SwapCallComesBack | crates/analytics-indexer/src/parser.rs:342-381 | Swap arguments parse back to the caller, the tokens, the exact total and every step of every route in order |
| Codec.CallComesBack | crates/analytics-indexer/src/parser.rs:383-435 | Any encoded round trip parses back to its user, tokens, amount and every step of both legs, in order with serial hop numbers and the venue names of the quoted steps |
| Codec.FindIsFirstHit | crates/analytics-indexer/src/parser.rs:324-340 | Searching an authorization tree is a linear search of its calls in preorder, errors included |
| Codec.EnvelopeIsFirstHit | crates/analytics-indexer/src/parser.rs:265-284 | Looking through the operations of a transaction, each call before its authorization trees, is a linear search too |
| Codec.OthersArePassed | crates/analytics-indexer/src/parser.rs:303-322 | Calls of other contracts and of other functions, `swap_restricted` among them, are passed over |
| Codec.FirstCallIsFound | crates/analytics-indexer/src/parser.rs:265-284 | A swap or round-trip call to the aggregator with no call to it before is the one returned, parsed by its name |
| Paging.ParseOfEncode | crates/api-server/src/swaps.rs:62-77 | Parsing undoes encoding exactly for hashes of 1 to 128 characters |
| Paging.EncodeOfParse | crates/api-server/src/swaps.rs:62-77 | Re-encoding a parsed cursor parses alike; the text itself may change |
| Paging.CrawlIsHistory | crates/api-server/src/swaps.rs:148-156 | On a fixed table following the cursor ends, and the pages concatenate to all rows below the start, newest first |
| Paging.PagesAreHistory | crates/analytics-indexer/src/store.rs:598-646 | From the first request on: the user's whole history, each row once, every row of a later time than the next, or of the same time and a hash that is larger at the first difference |
| Paging.PageHolds | crates/api-server/src/swaps.rs:148-156 | A page holds as many rows as were asked for, at least 1 and at most 50, while that many remain; all below the cursor, newest first by time and then hash, none skipped; and it has a next cursor exactly when it is full |
| Paging.RowsAppearOnce | crates/analytics-indexer/src/store.rs:598-646 | With rows inserted between requests that pass the cursor text along, every row present at the first request appears exactly once in a finished crawl, which is newest first |
| SimulationBook.SimulationBook.Record | crates/arbitrage/src/diagnostics.rs:138-156 | The loop over dimensions merges, inserts or drops, in place |
| SimulationBook.SimulationBook.TakeBatch | crates/arbitrage/src/diagnostics.rs:158-189 | Takes the keys after the cursor, then those up to it, removes their rows and moves the cursor |
| SimulationBook.SimulationBook.Restore | crates/arbitrage/src/diagnostics.rs:191-202 | Puts a failed batch back, counting dropped attempts |
| SimulationBook.Flush | crates/arbitrage/src/diagnostics.rs:312-328 | Up to eight turns of take and commit or restore, stopping as the code stops |
| SimulationBook.FlushShape | crates/arbitrage/src/diagnostics.rs:312-328 | A flush is some turns that took a batch and committed it, at most eight, and then one reason to stop: eight are over, the last one was slow, nothing is left, or the database refused a batch, which went back |
| SimulationBook.FlushConserves | crates/arbitrage/src/diagnostics.rs:312-328 | A whole flush loses nothing |
| SimulationModel.MergeIsSound | crates/arbitrage/src/diagnostics.rs:64-83 | Below saturation a merged row's outcomes add up to its attempts and its gap sum lies between minimum and maximum times samples |
| SimulationCounts.MergeCounts | crates/arbitrage/src/diagnostics.rs:64-83 | Below saturation a merge adds each of the ten statistics of its rows, outcome by outcome, and nothing else |
| SimulationPeaks.MergePeak | crates/arbitrage/src/diagnostics.rs:64-83 | A merge keeps the largest and smallest gap, the largest pool age and duration, and the latest time of both rows |
| SimulationCounts.DropsExactly | crates/arbitrage/src/diagnostics.rs:138-156 | A row is dropped exactly when its key is new and 4096 keys are pending |
| SimulationModel.EveryKeyServed | crates/arbitrage/src/diagnostics.rs:158-189 | n keys are all served by any ceil(n / 128) takes in a row, wherever the cursor stands |
| SimulationModel.RotationTurns | crates/arbitrage/src/diagnostics.rs:158-189 | A take moves its batch from the front of the rotation to the back |
| SimulationRuns.RunConserves | crates/arbitrage/src/diagnostics.rs:91-202 | Over any run while an attempts counter cannot saturate: recorded = pending + in flight + committed + dropped, and pending never exceeds 4096; while a gap sum cannot either, every row is consistent |
| SimulationCounts.RunCounts | crates/arbitrage/src/diagnostics.rs:91-202 | By key and statistic, while nothing is dropped or saturated: what pending rows, the batch being written and committed rows say adds up to what the recorded simulations contribute, every outcome counted as itself |
| SimulationPeaks.RunPeaks | crates/arbitrage/src/diagnostics.rs:91-202 | By key, while nothing is dropped: their extremes are together those of the recorded simulations |
| SimulationRuns.EveryKeyGetsItsTurn | crates/arbitrage/src/diagnostics.rs:158-202 | The round robin over real rounds: batches fail and come back while recordings go on, and no key is lost or starved |
| RateLimiter.SlidingWindowLimiter.AllowNow | crates/api-server/src/rate_limit.rs:38-53 | Pops what left the window, grants if there is room, and touches no other key |
| RateLimiter.GrantsByFullHistory | crates/api-server/src/rate_limit.rs:38-53 | For non-decreasing times it grants if and only if fewer than `limit` earlier grants have now - t below the window; the queue is sorted, at most `limit` long, and ends the history |
| RateLimiter.WindowsHoldLimit | crates/api-server/src/rate_limit.rs:38-53 | Every half-open window holds at most `limit` grants |
| RateLimiter.KeysAreIndependent | crates/api-server/src/rate_limit.rs:38-53 | A key's queue is what its own requests alone would leave |
| RateLimiter.LimiterKeepsFullHistory | crates/api-server/src/rate_limit.rs:38-53 | All of this for any interleaving of keys |
| Calendar.DaysFromCivilCounts | crates/api-server/src/xlm_price.rs:316-330 | On every valid date of any year, negative eras included, the closed form is the year-by-year, month-by-month day count |
| Calendar.DayOfWideCivil | crates/api-server/src/xlm_price.rs:284-297 | Every day number becomes a valid date that leads back to it |
| Calendar.WideCivilOfDay | crates/api-server/src/xlm_price.rs:284-297 | Every valid date leads to a day number that leads back to it |
| Calendar.CivilRoundTrip | crates/api-server/src/xlm_price.rs:284-330 | A 64-bit day number survives the trip through a date if and only if its year fits 32 bits |
| Calendar.YearsWrap | crates/api-server/src/xlm_price.rs:284-297 | Beyond 32 bits the year wraps around, month and day stay, and only where the shift of the epoch overflows is there no date |
| Calendar.DateRoundTrip | crates/api-server/src/xlm_price.rs:284-330 | Every valid date with a 32-bit year survives the trip through its day number, which is the count |
| Calendar.SecondsOfDay | crates/api-server/src/xlm_price.rs:278-282 | Every second of a day, before the epoch too, has that day's date |
| Calendar.DaysOverrun | crates/api-server/src/xlm_price.rs:316-330 | A day its month does not have counts on into the next month |

## Left out

- Soroban host details: initialization and upgrade of the contracts, storage lifetimes, authorization trees on the calling side (authorization is a set of signers), and contract-to-contract re-entry.
- DEX internals: the pools' own pricing and swap code, the Comet approval ledger, with whatever allowance a venue leaves unused, and per-arm call encodings; a venue is its reply.
- Ledger: malicious or fee-taking tokens.
- VaultModel.LendingAccount: the aggregator address, an argument of the source's entry point, is this aggregator.
- VaultContract.VaultContract.ExecuteRoundTrip: likewise; a vault pointed at another aggregator is not modelled.
- PairRoundTrip.OnePairRoundTripFails: a back step whose indices contradict its tokens, for which what the pair pays is up to the pair's own code.
- ScVal and Address: strkey, base64 and XDR layers; addresses are opaque and distinct, host values are decoded already.
- LegEvents.BuildInvocations: the order of the records (the source iterates by transaction hash); the result is a map.
- LegStore: rows first stored from an envelope and later merged with events, and transactions with several aggregator calls; amounts are kept as numbers rather than text.
- Ingest: reclamping of the cursor after the RPC's retention moved, which drops events by design; the page cap of the RPC client; the header rows of invocations under replays.
- Index: schema migration and the unscoped twins of the order statements.
- SkipRuns.SkippedBackfillExactly: later backfills that start inside the gap; `SkipRuns.GoneBackExactly` is about those that read all of it, `ReadOrder.AnyRunExactly` about all.
- SkipRuns.DiedShortExactly: later backfills from before the cursor, which `ReadOrder.AnyRunExactly` covers.
- Ingest.Convergence: runs with the other kinds of backfill, after which it can fail; `ReadOrder.AnyRunExactly` has the condition for every run.
- Ingest.PollingRecovers: likewise.
- IndexRefines.IndexShowsOrders: likewise, with `IndexRefines.IndexMirrorsExactly`.
- SimulationCounts.RunCounts: runs in which a row was dropped; what was dropped is counted without its key.
- Runs.VaultNeverLoses: does not cover admin withdrawals, which `Runs.RunAccounted` subtracts.
- Paging: request handling around the query (user check, trimming of the cursor text, a database that is absent) and the twin listing of round trips.
- SimulationBook.SimulationBook.Record: how a quote turns into dimensions and a gap in basis points; a dimension is its place in the iteration order.
- SimulationBook.Flush: retention by day and row cap, which delete committed rows after they were counted, and integer overflow of the database; below saturation its addition is the merge.
- SimulationBook.FlushConserves: likewise; rows deleted by retention still count as committed.
- Calendar: the zero-padded text of a date.
- RateLimiter: the middleware that picks the key, exempt addresses, and clocks that go back.
- Quoting, path finding, the limit keeper, submission, configuration, fee conversion, failure classification and floating-point price code: no model.
