/**
 * The integer helpers of `elkodon_bb_elementary::math`: rounding a size up to
 * an alignment, the base-2 logarithm of a power of two, and rounding up to the
 * next power of two.
 *
 * `usize` and `u64` are 64 bits wide here; every addition and subtraction that
 * could leave that range (and would panic in Rust) is excluded by a `requires`.
 */
module Math {

  /** One more than the largest `usize` (and `u64`) value. */
  const USIZE_LIMIT: nat := 0x1_0000_0000_0000_0000

  /** 2 to the power k. */
  function Pow2(k: nat): (r: nat)
    ensures r >= 1
  {
    if k == 0 then 1 else 2 * Pow2(k - 1)
  }

  /** n is a power of two: 1, 2, 4, 8, ... */
  predicate IsPow2(n: nat)
  {
    n == 1 || (n >= 2 && n % 2 == 0 && IsPow2(n / 2))
  }

  lemma {:induction false} Pow2IsPow2(k: nat)
    ensures IsPow2(Pow2(k))
  {
    if k > 0 {
      Pow2IsPow2(k - 1);
      assert Pow2(k) / 2 == Pow2(k - 1);
    }
  }

  lemma {:induction false} Pow2StrictlyIncreasing(i: nat, j: nat)
    requires i < j
    ensures Pow2(i) < Pow2(j)
  {
    if j > i + 1 {
      Pow2StrictlyIncreasing(i, j - 1);
    }
  }

  // ---------------------------------------------------------------------
  // align, align_to
  // ---------------------------------------------------------------------

  /**
   * `align(value, alignment)`: `value` when it is already a multiple of
   * `alignment`, otherwise `value + alignment - value % alignment`. Rust
   * evaluates `value + alignment` first, so that sum must fit in a `usize`;
   * `alignment == 0` would divide by zero.
   */
  function Align(value: nat, alignment: nat): (r: nat)
    requires 0 < alignment < USIZE_LIMIT && value < USIZE_LIMIT
    requires value % alignment == 0 || value + alignment < USIZE_LIMIT
    ensures r % alignment == 0
    ensures value <= r < value + alignment
    ensures r == value <==> value % alignment == 0
    ensures r < USIZE_LIMIT
  {
    if value % alignment == 0 then value
    else
      RoundUpIsMultiple(value, alignment);
      value + alignment - value % alignment
  }

  lemma RoundUpIsMultiple(value: nat, d: nat)
    requires d > 0
    ensures (value + d - value % d) % d == 0
  {
    var q := value / d;
    assert value == q * d + value % d;
    assert value + d - value % d == (q + 1) * d;
    DivUnique(value + d - value % d, d, q + 1, 0);
  }

  /** `Align` returns the least multiple of `alignment` that is at least `value`. */
  lemma AlignIsLeastMultiple(value: nat, alignment: nat, m: nat)
    requires 0 < alignment < USIZE_LIMIT && value < USIZE_LIMIT
    requires value % alignment == 0 || value + alignment < USIZE_LIMIT
    requires m % alignment == 0 && value <= m
    ensures Align(value, alignment) <= m
  {
    var r := Align(value, alignment);
    if m < r {
      // m and r are both multiples of alignment and 0 < r - m < alignment
      MultiplesApart(m, r, alignment);
    }
  }

  /** Two distinct multiples of d lie at least d apart. */
  lemma MultiplesApart(a: nat, b: nat, d: nat)
    requires d > 0 && a % d == 0 && b % d == 0 && a < b
    ensures a + d <= b
  {
    var qa, qb := a / d, b / d;
    assert a == qa * d && b == qb * d;
    MulMonotoneStrict(qa, qb, d);
  }

  lemma MulMonotone(x: nat, y: nat, d: nat)
    requires x <= y
    ensures x * d <= y * d
  {}

  /** If x * d < y * d then (x + 1) * d <= y * d. */
  lemma MulMonotoneStrict(x: nat, y: nat, d: nat)
    requires d > 0 && x * d < y * d
    ensures (x + 1) * d <= y * d
  {
    if y <= x {
      MulMonotone(y, x, d);
    } else {
      MulMonotone(x + 1, y, d);
    }
  }

  /**
   * `align_to::<T>(value)`: `align` with the alignment of `T`, which Rust
   * guarantees to be a power of two; it is a parameter here.
   */
  function AlignTo(value: nat, alignOfT: nat): (r: nat)
    requires IsPow2(alignOfT) && alignOfT < USIZE_LIMIT && value < USIZE_LIMIT
    requires value % alignOfT == 0 || value + alignOfT < USIZE_LIMIT
    ensures r == Align(value, alignOfT)
    ensures r % alignOfT == 0 && value <= r < value + alignOfT
  {
    Align(value, alignOfT)
  }

  /** The two cases pinned by the tests of `align`. */
  lemma AlignExamples()
    ensures Align(25, 5) == 25
    ensures Align(30, 7) == 35
  {}

  // ---------------------------------------------------------------------
  // log2_of_power_of_2
  // ---------------------------------------------------------------------

  /** The floor of the base-2 logarithm: the position of the highest set bit. */
  function FloorLog2(v: nat): (k: nat)
    requires v >= 1
    ensures Pow2(k) <= v < Pow2(k + 1)
  {
    if v == 1 then 0 else 1 + FloorLog2(v / 2)
  }

  /** The exponent that brackets v between consecutive powers of two is unique. */
  lemma FloorLog2Unique(v: nat, k: nat)
    requires Pow2(k) <= v < Pow2(k + 1)
    ensures FloorLog2(v) == k
  {
    var f := FloorLog2(v);
    if f < k {
      Pow2StrictlyIncreasing(f, k);
      if f + 1 < k { Pow2StrictlyIncreasing(f + 1, k); }
    } else if k < f {
      if k + 1 < f { Pow2StrictlyIncreasing(k + 1, f); }
    }
  }

  /** `log2_of_power_of_2(2^i) == i`, the property the tests check for i in 0..64. */
  lemma {:induction false} FloorLog2OfPow2(i: nat)
    ensures FloorLog2(Pow2(i)) == i
  {
    if i > 0 {
      FloorLog2OfPow2(i - 1);
      assert Pow2(i) / 2 == Pow2(i - 1);
    }
  }

  lemma HalveQuotient(x: nat, p: nat)
    requires p >= 1
    ensures x / p / 2 == x / (2 * p)
  {
    var q := x / p;
    var q2 := q / 2;
    assert x == q * p + x % p;
    assert q == 2 * q2 + q % 2;
    assert x == q2 * (2 * p) + ((q % 2) * p + x % p);
    assert 0 <= (q % 2) * p + x % p < 2 * p;
    DivUnique(x, 2 * p, q2, (q % 2) * p + x % p);
  }

  lemma DivUnique(x: nat, d: nat, q: nat, m: nat)
    requires d >= 1 && m < d && x == q * d + m
    ensures x / d == q
  {
    var q' := x / d;
    assert x == q' * d + x % d;
    if q' < q {
      MulMonotone(q' + 1, q, d);
    } else if q < q' {
      MulMonotone(q + 1, q', d);
    }
  }

  /** What `bits == value / p` says about value, for the two outcomes of the test `bits == 1`. */
  lemma QuotientBounds(value: nat, p: nat)
    requires p >= 1
    ensures value / p == 1 ==> p <= value < 2 * p
    ensures value / p >= 2 ==> 2 * p <= value
  {
    var q := value / p;
    assert value == q * p + value % p;
    if q >= 2 {
      MulMonotone(2, q, p);
    }
  }

  lemma {:induction false} Pow2Add(a: nat, b: nat)
    ensures Pow2(a + b) == Pow2(a) * Pow2(b)
  {
    if a > 0 {
      Pow2Add(a - 1, b);
    }
  }

  lemma Pow2SixtyFour()
    ensures Pow2(64) == USIZE_LIMIT
  {
    assert Pow2(2) == 4;
    Pow2Add(2, 2);
    Pow2Add(4, 4);
    Pow2Add(8, 8);
    Pow2Add(16, 16);
    Pow2Add(32, 32);
  }

  /**
   * `log2_of_power_of_2(value)`: shift `bits` right until it is 1, for at
   * most 64 rounds, and return how many shifts that took; 0 if it never
   * becomes 1 (only for `value == 0`). For any non-zero `value` this is the
   * position of its highest set bit, so the exact log2 for a power of two.
   */
  method Log2OfPowerOf2(value: nat) returns (r: nat)
    requires value < USIZE_LIMIT
    ensures r < 64
    ensures value == 0 ==> r == 0
    ensures value >= 1 ==> Pow2(r) <= value < Pow2(r + 1) && r == FloorLog2(value)
  {
    var bits := value;
    for i := 0 to 64
      invariant bits == value / Pow2(i)
      invariant value == 0 || Pow2(i) <= value
    {
      QuotientBounds(value, Pow2(i));
      if bits == 1 {
        FloorLog2Unique(value, i);
        return i;
      }
      HalveQuotient(value, Pow2(i));
      bits := bits / 2;
    }
    Pow2SixtyFour();
    return 0;
  }

  /**
   * The test of `log2_of_power_of_2`: 0 maps to 0, and `logs[i]` is the
   * result for 2^i, which is i, for every i in 0..64.
   */
  method Log2OfPowerOf2Examples() returns (zero: nat, logs: seq<nat>)
    ensures zero == 0
    ensures |logs| == 64 && forall i :: 0 <= i < 64 ==> logs[i] == i
  {
    zero := Log2OfPowerOf2(0);
    logs := [];
    for i := 0 to 64
      invariant |logs| == i && forall k :: 0 <= k < i ==> logs[k] == k
    {
      Pow2SixtyFour();
      Pow2StrictlyIncreasing(i, 64);
      var r := Log2OfPowerOf2(Pow2(i));
      FloorLog2OfPow2(i);
      logs := logs + [r];
    }
  }

  // ---------------------------------------------------------------------
  // round_to_pow2
  // ---------------------------------------------------------------------

  /** A 64-bit word with exactly one bit set. */
  predicate IsPow2Bits(x: bv64)
  {
    x != 0 && x & (x - 1) == 0
  }

  /**
   * The OR-shift cascade of `round_to_pow2`: x with its highest set bit
   * copied into every lower position. Every bit of x stays set, and every
   * bit below a set bit is set.
   */
  ghost function Smear(x: bv64): (r: bv64)
    ensures r | x == r
    ensures (r >> 1) | r == r
  {
    var a := x | (x >> 1);
    var b := a | (a >> 2);
    var c := b | (b >> 4);
    var d := c | (c >> 8);
    var e := d | (d >> 16);
    e | (e >> 32)
  }

  // Each lemma below is one bit-level fact about the cascade, proved by the
  // solver on its own; together they are the contract of `RoundToPow2`.

  lemma SmearPlusOneIsPow2(value: bv64)
    requires 1 <= value <= 0x8000_0000_0000_0000
    ensures IsPow2Bits(Smear(value - 1) + 1)
  {}

  lemma SmearPlusOneCovers(value: bv64)
    requires 1 <= value <= 0x8000_0000_0000_0000
    ensures value <= Smear(value - 1) + 1
  {}

  lemma SmearPlusOneHalfBelow(value: bv64)
    requires 1 <= value <= 0x8000_0000_0000_0000
    ensures (Smear(value - 1) + 1) >> 1 <= value - 1
  {}

  /** `round_to_pow2` returns a power of two unchanged (the tests check 1, 2 and 4). */
  lemma SmearOfPow2(value: bv64)
    requires 1 <= value <= 0x8000_0000_0000_0000
    ensures IsPow2Bits(value) ==> Smear(value - 1) + 1 == value
  {}

  /**
   * `round_to_pow2(value)`: subtract one, copy the highest set bit into every
   * lower position, add one. The result is the least power of two that is at
   * least `value` (its half is below `value`). `value == 0` underflows at the subtraction and a `value` above
   * 2^63 overflows at the final addition.
   */
  method RoundToPow2(value: bv64) returns (r: bv64)
    requires 1 <= value <= 0x8000_0000_0000_0000
    ensures IsPow2Bits(r)
    ensures value <= r
    ensures r >> 1 <= value - 1
    ensures r == Smear(value - 1) + 1
  {
    r := value;
    r := r - 1;
    r := r | (r >> 1);
    r := r | (r >> 2);
    r := r | (r >> 4);
    r := r | (r >> 8);
    r := r | (r >> 16);
    r := r | (r >> 32);
    r := r + 1;
    SmearPlusOneIsPow2(value);
    SmearPlusOneCovers(value);
    SmearPlusOneHalfBelow(value);
  }

  /** The values the tests of `round_to_pow2` expect, for the inputs 1, 2, 3, 4, 5, 6 and 8589934597. */
  method RoundToPow2Examples() returns (results: seq<bv64>)
    ensures results == [1, 2, 4, 4, 8, 8, 17179869184]
  {
    var inputs: seq<bv64> := [1, 2, 3, 4, 5, 6, 8589934597];
    results := [];
    for k := 0 to |inputs|
      invariant |results| == k
      invariant forall n :: 0 <= n < k ==> results[n] == [1, 2, 4, 4, 8, 8, 17179869184][n]
    {
      var r := RoundToPow2(inputs[k]);
      results := results + [r];
    }
  }
}
