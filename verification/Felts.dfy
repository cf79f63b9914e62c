/** Miden field elements and the checked operations of `masm/lib/math.masm`. */
module Felts {
  import opened Wrappers

  /** The prime 2^64 - 2^32 + 1; `FELT_MAX` in the source is `P - 1`. */
  const P: nat := 0xFFFF_FFFF_0000_0001
  const U32_BOUND: nat := 0x1_0000_0000
  const U64_MAX: nat := 0xFFFF_FFFF_FFFF_FFFF

  type Felt = x: int | 0 <= x < P
  type U32 = x: int | 0 <= x < U32_BOUND
  type U64 = x: int | 0 <= x <= U64_MAX

  function FAdd(a: Felt, b: Felt): Felt {
    if a + b < P then a + b else a + b - P
  }

  function FSub(a: Felt, b: Felt): Felt {
    if b <= a then a - b else a - b + P
  }

  function FMul(a: Felt, b: Felt): Felt {
    (a * b) % P
  }

  /** `Felt::new` on a `u64`: the residue modulo `P`. */
  function ToFelt(x: nat): (r: Felt)
    ensures x < P ==> r == x
  {
    x % P
  }

  /** `add` wraps, and the comparison that follows detects exactly the wrapped sums. */
  method SafeAdd(b: Felt, a: Felt) returns (r: Option<Felt>)
    ensures r == if a + b < P then Some(a + b) else None
  {
    var res := FAdd(b, a);
    if res >= b {
      return Some(res);
    }
    return None;
  }

  method SafeSub(b: Felt, a: Felt) returns (r: Option<Felt>)
    ensures r == if b <= a then Some(a - b) else None
  {
    var res := FSub(a, b);
    if res <= a {
      return Some(res);
    }
    return None;
  }

  /** Joins two 32-bit limbs; the only failing inputs are those at or above the prime. */
  method SafeCastU64IntoFelt(hi: U32, lo: U32) returns (r: Option<Felt>)
    ensures r == if hi * U32_BOUND + lo < P then Some(hi * U32_BOUND + lo) else None
  {
    var hiScaled := FMul(hi, U32_BOUND);
    assert hiScaled == hi * U32_BOUND;
    if hiScaled < hi {
      return None;
    }
    var res := FAdd(hiScaled, lo);
    if res < hiScaled {
      return None;
    }
    return Some(res);
  }
}
