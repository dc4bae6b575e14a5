// Soroban values, as the event and envelope layers see them once decoded.

module ScVal {
  import opened Base

  datatype ScVal =
    | ScVoid
    | ScBool(b: bool)
    | ScU32(u32: uint32)
    | ScU64(u64: uint64)
    | ScI128(hi: int64, lo: uint64)
    | ScSymbol(symbol: string)
    | ScAddress(address: Address)
    | ScVec(items: Option<seq<ScVal>>)
    | ScMap(fields: Option<seq<(ScVal, ScVal)>>)

  const TWO64 := 0x1_0000_0000_0000_0000

  /** The high and low words of a 128-bit number: `v >> 64` and `v as u64`. */
  function EncodeI128(v: int128): ScVal {
    WordsInRange(v);
    ScI128(v / TWO64, v % TWO64)
  }

  lemma WordsInRange(v: int128)
    ensures -I64_MAX - 1 <= v / TWO64 <= I64_MAX && 0 <= v % TWO64 <= U64_MAX
    ensures v / TWO64 * TWO64 + v % TWO64 == v
  {
  }

  /** `(hi << 64) | lo`: the words do not overlap, so the union is the sum. */
  function JoinWords(hi: int64, lo: uint64): int128 {
    hi * TWO64 + lo
  }

  /** The two words carry the whole `i128` range, and every pair of words is the encoding of one number. */
  lemma I128RoundTrip(v: int128, hi: int64, lo: uint64)
    ensures EncodeI128(v) == ScI128(v / TWO64, v % TWO64) && JoinWords(v / TWO64, v % TWO64) == v
    ensures EncodeI128(JoinWords(hi, lo)) == ScI128(hi, lo)
  {
    WordsInRange(v);
    var j := JoinWords(hi, lo);
    WordsInRange(j);
    assert j / TWO64 == hi && j % TWO64 == lo;
  }

  /** The `u64 as i64` cast. */
  function WrapToI64(x: uint64): int64 {
    if x > I64_MAX then x - U64_MAX - 1 else x
  }

  lemma WrapToI64Injective(x: uint64, y: uint64)
    ensures WrapToI64(x) == WrapToI64(y) <==> x == y
  {
  }
}
