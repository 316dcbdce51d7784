/** The 32-bit signed integer arithmetic of C# `int` that the quality-preset
    codec relies on: unchecked `+` and `<<` wrap around modulo 2^32,
    `>>` is an arithmetic (sign-propagating) shift, and `& ((1 << w) - 1)`
    keeps the low `w` bits of the two's-complement representation.
 */
module Int32 {

  const Modulus: int := 0x1_0000_0000

  /** A C# `int`. */
  newtype int32 = x: int | -0x8000_0000 <= x < 0x8000_0000

  function Pow2(n: nat): (r: nat)
    ensures r >= 1
  {
    if n == 0 then 1 else 2 * Pow2(n - 1)
  }

  /** Reinterprets the low 32 bits of `x` as a two's-complement `int`:
      the unique 32-bit value congruent to `x` modulo 2^32. */
  function Wrap(x: int): (r: int32)
    ensures Congruent(r as int, x)
    ensures -0x8000_0000 <= x < 0x8000_0000 ==> r as int == x
  {
    ((x + 0x8000_0000) % Modulus - 0x8000_0000) as int32
  }

  /** Two integers with the same residue modulo 2^32 wrap to the same `int`. */
  lemma {:induction false} WrapCongruent(a: int, b: int)
    requires Congruent(a, b)
    ensures Wrap(a) == Wrap(b)
  {
    var k := (a - b) / Modulus;
    assert a == b + k * Modulus;
    assert (a + 0x8000_0000) % Modulus == (b + 0x8000_0000) % Modulus by {
      ModShift(b + 0x8000_0000, k);
    }
  }

  lemma {:induction false} ModShift(x: int, k: int)
    ensures (x + k * Modulus) % Modulus == x % Modulus
  {
    var q, r := x / Modulus, x % Modulus;
    assert x == q * Modulus + r;
    assert x + k * Modulus == (q + k) * Modulus + r;
  }

  /** Congruence modulo 2^32. */
  predicate Congruent(a: int, b: int) {
    (a - b) % Modulus == 0
  }

  lemma CongruentSum(a: int, b: int, x: int, y: int)
    requires Congruent(a, x) && Congruent(b, y)
    ensures Congruent(a + b, x + y)
  {
    var ka, kb := (a - x) / Modulus, (b - y) / Modulus;
    assert (a + b) - (x + y) == 0 + (ka + kb) * Modulus;
    ModShift(0, ka + kb);
  }

  lemma CongruentTrans(a: int, b: int, c: int)
    requires Congruent(a, b) && Congruent(b, c)
    ensures Congruent(a, c)
  {
    var k1, k2 := (a - b) / Modulus, (b - c) / Modulus;
    assert a - c == 0 + (k1 + k2) * Modulus;
    ModShift(0, k1 + k2);
  }

  /** Unchecked `a + b`. */
  function Add(a: int32, b: int32): (r: int32)
    ensures Congruent(r as int, a as int + b as int)
  {
    Wrap(a as int + b as int)
  }

  /** Unchecked `x << k` for a constant shift count below 32. */
  function ShiftLeft(x: int32, k: nat): (r: int32)
    requires k < 32
    ensures Congruent(r as int, x as int * Pow2(k))
  {
    Wrap(x as int * Pow2(k))
  }

  /** Arithmetic `x >> k`: rounds toward negative infinity. */
  function ShiftRight(x: int32, k: nat): (r: int)
    requires k < 32
    ensures r * Pow2(k) <= x as int < (r + 1) * Pow2(k)
  {
    x as int / Pow2(k)
  }

  /** `x & ((1 << w) - 1)` for a small width `w`: the low `w` bits of `x`,
      the non-negative value below 2^w congruent to `x` modulo 2^w. */
  function LowBits(x: int, w: nat): (r: int32)
    requires w <= 16
    ensures 0 <= r as int < Pow2(w)
    ensures x - r as int == (x / Pow2(w)) * Pow2(w)
  {
    PowBound(w);
    EuclideanDivision(x, Pow2(w));
    (x % Pow2(w)) as int32
  }

  /** Dafny's `/` and `%` split `x` into a multiple of `d` and a remainder in `[0, d)`. */
  lemma EuclideanDivision(x: int, d: int)
    requires d >= 1
    ensures x == (x / d) * d + x % d
    ensures 0 <= x % d < d
  {
  }

  lemma {:induction false} PowBound(w: nat)
    requires w <= 16
    ensures Pow2(w) <= 0x1_0000
  {
    PowMonotone(w, 16);
    PowTable();
  }

  lemma PowTable()
    ensures Pow2(0) == 1 && Pow2(2) == 4 && Pow2(4) == 0x10 && Pow2(8) == 0x100 && Pow2(10) == 0x400
    ensures Pow2(14) == 0x4000 && Pow2(16) == 0x1_0000
  {
  }

  lemma {:induction false} PowMonotone(a: nat, b: nat)
    requires a <= b
    ensures Pow2(a) <= Pow2(b)
    decreases b - a
  {
    if a < b {
      PowMonotone(a + 1, b);
    }
  }
}
