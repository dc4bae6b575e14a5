// Machine integers, outcomes, addresses and routes shared by every component.

module Base {

  const I128_MAX := 0x7FFF_FFFF_FFFF_FFFF_FFFF_FFFF_FFFF_FFFF
  const I128_MIN := -I128_MAX - 1
  const U128_MAX := 0xFFFF_FFFF_FFFF_FFFF_FFFF_FFFF_FFFF_FFFF
  const U64_MAX := 0xFFFF_FFFF_FFFF_FFFF
  const I64_MAX := 0x7FFF_FFFF_FFFF_FFFF
  const U32_MAX := 0xFFFF_FFFF

  type int128 = x: int | I128_MIN <= x <= I128_MAX
  type uint128 = x: int | 0 <= x <= U128_MAX
  type uint64 = x: int | 0 <= x <= U64_MAX
  type int64 = x: int | -I64_MAX - 1 <= x <= I64_MAX
  type uint32 = x: int | 0 <= x <= U32_MAX

  /** A token balance. */
  type Amount = x: int | 0 <= x <= I128_MAX

  /** `u32::saturating_add`. */
  function SaturatingAdd32(a: uint32, b: uint32): (r: uint32)
    ensures r <= a + b
  {
    if a + b > U32_MAX then U32_MAX else a + b
  }

  /** `saturating_sub` on an unsigned type. */
  function SaturatingSub(a: nat, b: nat): (r: nat)
    ensures r <= a
  {
    if b > a then 0 else a - b
  }

  /** `u32::try_from(i).unwrap_or(u32::MAX)`. */
  function ClampToU32(i: nat): uint32 {
    if i > U32_MAX then U32_MAX else i
  }

  /** The two's complement value of the low 128 bits: the `u128 as i128` cast. */
  function WrapToI128(x: uint128): int128 {
    if x > I128_MAX then x - U128_MAX - 1 else x
  }

  datatype Option<+T> = None | Some(value: T)

  datatype AggregatorError =
    | InvalidAmount | InvalidMinimumOut | EmptyRoutes | InvalidRoute | DisconnectedRoute | InvalidStep
    | ZeroStepOutput | OutputBelowMinimum | VenueNotRegistered | ArithmeticOverflow | ArithmeticUnderflow

  datatype EscrowError =
    | AmountNotPositive | LimitNotPositive | SameToken | ExpirationInPast | ExpirationTooFar
    | OrderNotFound | OrderNotOpen | OrderExpired | OrderNotExpired | AmountExceedsRemaining
    | RouteAmountMismatch | MinimumOutBelowLimit | InvalidChunk | InvalidInterval | StartLedgerInPast
    | InvalidMinimumRate | ChunkNotDue | EscrowOverflow

  datatype VaultError = NonPositiveAmount | MinimumBelowPrincipal | InvalidAllowanceExpiry | UnauthorizedCaller

  /** `Trap` is any abort raised by the host itself: a missing authorization, a refused
      token transfer, a venue that fails, or a call into a contract that cannot be a venue. */
  datatype Error =
    | InAggregator(aggregator: AggregatorError)
    | InEscrow(escrow: EscrowError)
    | InVault(vault: VaultError)
    | Trap

  datatype Result<+T> = Ok(value: T) | Err(error: Error) {

    predicate IsFailure() {
      Err?
    }

    function PropagateFailure<U>(): Result<U>
      requires Err?
    {
      Err(error)
    }

    function Extract(): T
      requires Ok?
    {
      value
    }
  }

  /** `i128::checked_add`, failing with the caller's error. */
  function CheckedAdd(a: int128, b: int128, e: Error): Result<int128>
  {
    if I128_MIN <= a + b <= I128_MAX then Ok(a + b) else Err(e)
  }

  /** `i128::checked_sub`. */
  function CheckedSub(a: int128, b: int128, e: Error): Result<int128> {
    if I128_MIN <= a - b <= I128_MAX then Ok(a - b) else Err(e)
  }

  /** `i128::checked_mul`. */
  function CheckedMul(a: int128, b: int128, e: Error): Result<int128> {
    if I128_MIN <= a * b <= I128_MAX then Ok(a * b) else Err(e)
  }

  /** Rust's `/` on `i128` truncates toward zero. */
  function TruncatingDiv(a: int128, b: int128): int128
    requires b > 0
  {
    if a >= 0 then a / b else -((0 - a as int) / b)
  }

  /** A chain address. The three deployed contracts are distinct by construction. */
  datatype Address = Account(id: nat) | Contract(hash: nat) | Aggregator | Escrow | Vault

  datatype DexType = Aquarius | SoroswapPair | Phoenix | Sushi | CometDex

  datatype SwapStep = SwapStep(dexId: Address, dexType: DexType, tokenIn: Address, tokenOut: Address,
                               inIdx: uint32, outIdx: uint32)

  datatype SubRoute = SubRoute(amountIn: int128, steps: seq<SwapStep>)

  /** The tag under which a venue type appears in `leg` events and in the venue registry. */
  function DexTag(d: DexType): uint32 {
    match d
    case Aquarius => 0
    case SoroswapPair => 1
    case Phoenix => 2
    case Sushi => 3
    case CometDex => 4
  }

  function Sum(s: seq<int>): int {
    if s == [] then 0 else Sum(s[..|s| - 1]) + s[|s| - 1]
  }

  function Amounts(routes: seq<SubRoute>): (w: seq<int>)
    ensures |w| == |routes| && forall k :: 0 <= k < |w| ==> w[k] == routes[k].amountIn
  {
    seq(|routes|, k requires 0 <= k < |routes| => routes[k].amountIn)
  }

  lemma {:induction false} SumAppend(s: seq<int>, x: int)
    ensures Sum(s + [x]) == Sum(s) + x
  {
    assert (s + [x])[..|s|] == s;
  }

  lemma {:induction false} SumTake(s: seq<int>, k: nat)
    requires k < |s|
    ensures Sum(s[..k + 1]) == Sum(s[..k]) + s[k]
  {
    assert s[..k + 1] == s[..k] + [s[k]];
    SumAppend(s[..k], s[k]);
  }

  lemma {:induction false} SumPositive(s: seq<int>)
    requires forall k :: 0 <= k < |s| ==> s[k] > 0
    ensures Sum(s) >= |s|
  {
    if s == [] {
    } else {
      SumPositive(s[..|s| - 1]);
    }
  }

  /** A prefix of positive numbers sums to no more than the whole. */
  lemma {:induction false} SumPrefix(s: seq<int>, k: nat)
    requires k <= |s|
    requires forall j :: 0 <= j < |s| ==> s[j] > 0
    ensures Sum(s[..k]) + (|s| - k) <= Sum(s)
    decreases |s|
  {
    if k == |s| {
      assert s[..k] == s;
    } else {
      SumPrefix(s[..|s| - 1], k);
      assert s[..|s| - 1][..k] == s[..k];
    }
  }

  lemma PartialSum(s: seq<int>, k: nat)
    requires 0 < k <= |s| && forall j :: 0 <= j < |s| ==> s[j] > 0
    ensures Sum(s[..k]) == Sum(s[..k - 1]) + s[k - 1] && 0 <= Sum(s[..k - 1]) && Sum(s[..k]) <= Sum(s)
  {
    hide Sum;
    SumTake(s, k - 1);
    SumPrefix(s, k);
    SumPositive(s[..k - 1]);
  }
}
