/**
 The bit-by-bit integer square roots of `masm/lib/math.masm`.

 A MASM u64 is a pair of 32-bit limbs, high limb first as in the comments of the source; the locals
 that hold such a pair are one number below 2^64 here, and `u32split` and the final cast convert.
 */
module IntegerSqrt {
  import opened Wrappers
  import opened Felts

  /** Unsigned addition and subtraction at a word size; `modulus` is 2^32 or 2^64. */
  function WrappingAdd(a: nat, b: nat, modulus: nat): (r: nat)
    requires a < modulus && b < modulus
    ensures r < modulus
  {
    if a + b < modulus then a + b else a + b - modulus
  }

  function WrappingSub(a: nat, b: nat, modulus: nat): (r: nat)
    requires a < modulus && b < modulus
    ensures r < modulus
  {
    if b <= a then a - b else a - b + modulus
  }

  ghost function Pow2(k: nat): (r: nat)
    ensures r >= 1
  {
    if k == 0 then 1 else 2 * Pow2(k - 1)
  }

  lemma Pow2Values()
    ensures Pow2(16) == 0x1_0000
    ensures Pow2(32) == U32_BOUND
  {
    assert Pow2(8) == 0x100;
    assert Pow2(16) == 0x1_0000;
    assert Pow2(24) == 0x100_0000;
    assert Pow2(32) == U32_BOUND;
  }

  /**
   The state before a round, for input `n`: `root` is the root found so far, `step` twice the value
   of the binary digit tried next, and `m`, `result`, `bit` the three locals of the source.
   */
  ghost predicate RootInvariant(n: nat, m: nat, result: nat, bit: nat, root: nat, step: nat) {
    && step >= 1
    && m + root * root == n
    && result == root * step
    && bit == step * step / 4
    && m < 2 * root * step + step * step
  }

  /** What a round adds up: `result + bit` is the growth of the square when the digit is taken. */
  lemma RoundArithmetic(n: nat, m: nat, result: nat, bit: nat, root: nat, half: nat)
    requires half >= 1
    requires RootInvariant(n, m, result, bit, root, 2 * half)
    ensures bit == half * half
    ensures result == 2 * (root * half)
    ensures result + bit == (root + half) * (root + half) - root * root
    ensures m < 2 * (result + 2 * bit)
  {
    assert (2 * half) * (2 * half) == 4 * (half * half);
    assert root * (2 * half) == 2 * (root * half);
    assert (root + half) * (root + half) == root * root + 2 * (root * half) + half * half;
    assert 2 * root * (2 * half) == 4 * (root * half);
  }

  lemma RoundTaken(n: nat, m: nat, result: nat, bit: nat, root: nat, half: nat)
    requires half >= 1 && m >= result + bit
    requires RootInvariant(n, m, result, bit, root, 2 * half)
    ensures RootInvariant(n, m - (result + bit), result / 2 + bit, bit / 4, root + half, half)
  {
    RoundArithmetic(n, m, result, bit, root, half);
    assert (root + half) * half == root * half + half * half;
    assert 2 * (root + half) * half == 2 * ((root + half) * half);
  }

  lemma RoundSkipped(n: nat, m: nat, result: nat, bit: nat, root: nat, half: nat)
    requires half >= 1 && m < result + bit
    requires RootInvariant(n, m, result, bit, root, 2 * half)
    ensures RootInvariant(n, m, result / 2, bit / 4, root, half)
  {
    RoundArithmetic(n, m, result, bit, root, half);
    assert 2 * root * half == 2 * (root * half);
  }

  /** Every intermediate value of a round stays below the square of the limit on the root. */
  lemma RoundStaysInRange(n: nat, m: nat, result: nat, bit: nat, root: nat, half: nat, limit: nat)
    requires half >= 1 && root + 2 * half <= limit
    requires RootInvariant(n, m, result, bit, root, 2 * half)
    ensures result + bit < limit * limit
  {
    RoundArithmetic(n, m, result, bit, root, half);
    SquareMonotone(root + half, limit);
  }

  lemma SquareMonotone(a: nat, b: nat)
    requires a < b
    ensures a * a < b * b
  {
    assert a * a <= a * b;
    assert a * b < b * b;
  }

  lemma RootStart(n: nat, step: nat)
    requires n < step * step
    requires step % 2 == 0 && step > 0
    ensures RootInvariant(n, n, 0, step * step / 4, 0, step)
  {
  }

  lemma RootFound(n: nat, m: nat, result: nat, bit: nat, root: nat)
    requires RootInvariant(n, m, result, bit, root, 1)
    ensures result * result <= n < (result + 1) * (result + 1)
    ensures result == root
  {
    assert result == root;
    assert (root + 1) * (root + 1) == root * root + 2 * root + 1;
  }

  /** One round: no sum leaves the range, and the invariant holds for the next digit whichever branch is taken. */
  lemma RoundKeeps(n: nat, m: nat, result: nat, bit: nat, root: nat, half: nat, limit: nat) returns (next: nat)
    requires half >= 1 && root + 2 * half <= limit
    requires RootInvariant(n, m, result, bit, root, 2 * half)
    ensures result / 2 + bit <= result + bit < limit * limit
    ensures next + half <= limit
    ensures m >= result + bit ==> RootInvariant(n, m - (result + bit), result / 2 + bit, bit / 4, next, half)
    ensures m < result + bit ==> RootInvariant(n, m, result / 2, bit / 4, next, half)
  {
    RoundStaysInRange(n, m, result, bit, root, half, limit);
    if m >= result + bit {
      RoundTaken(n, m, result, bit, root, half);
      next := root + half;
    } else {
      RoundSkipped(n, m, result, bit, root, half);
      next := root;
    }
  }

  /** The body of both loops. */
  method Round(m: nat, result: nat, bit: nat, modulus: nat,
               ghost n: nat, ghost root: nat, ghost half: nat, ghost limit: nat)
    returns (m': nat, result': nat, bit': nat, ghost next: nat)
    requires m < modulus && result < modulus && bit < modulus && limit * limit <= modulus
    requires half >= 1 && root + 2 * half <= limit
    requires RootInvariant(n, m, result, bit, root, 2 * half)
    ensures m' < modulus && result' < modulus && bit' < modulus
    ensures RootInvariant(n, m', result', bit', next, half) && next + half <= limit
  {
    next := RoundKeeps(n, m, result, bit, root, half, limit);
    var tmp := WrappingAdd(result, bit, modulus);
    if m >= tmp {
      m' := WrappingSub(m, tmp, modulus);
      result' := WrappingAdd(result / 2, bit, modulus);
    } else {
      m' := m;
      result' := result / 2;
    }
    bit' := bit / 4;
  }

  method SqrtU32(n: U32) returns (r: U32)
    ensures r * r <= n < (r + 1) * (r + 1)
  {
    var m, result, bit := n, 0, 0x4000_0000;
    ghost var root: nat := 0;
    Pow2Values();
    RootStart(n, 0x1_0000);
    for i := 0 to 16
      invariant 0 <= m < U32_BOUND && 0 <= result < U32_BOUND && 0 <= bit < U32_BOUND
      invariant RootInvariant(n, m, result, bit, root, Pow2(16 - i))
      invariant root + Pow2(16 - i) <= 0x1_0000
    {
      m, result, bit, root := Round(m, result, bit, U32_BOUND, n, root, Pow2(15 - i), 0x1_0000);
    }
    RootFound(n, m, result, bit, root);
    r := result;
  }

  /** The root of every field element exists: the wrapping steps never wrap and the cast never fails. */
  method Sqrt(n: Felt) returns (r: Option<Felt>)
    ensures r.Some? && r.value * r.value <= n < (r.value + 1) * (r.value + 1)
  {
    var m, result, bit := n, 0, 0x4000_0000_0000_0000;
    ghost var root: nat := 0;
    Pow2Values();
    RootStart(n, U32_BOUND);
    for i := 0 to 32
      invariant 0 <= m <= U64_MAX && 0 <= result <= U64_MAX && 0 <= bit <= U64_MAX
      invariant RootInvariant(n, m, result, bit, root, Pow2(32 - i))
      invariant root + Pow2(32 - i) <= U32_BOUND
    {
      m, result, bit, root := Round(m, result, bit, U64_MAX + 1, n, root, Pow2(31 - i), U32_BOUND);
    }
    RootFound(n, m, result, bit, root);
    assert result / U32_BOUND == 0 && result % U32_BOUND == result;
    r := SafeCastU64IntoFelt(result / U32_BOUND, result % U32_BOUND);
  }
}
