/** Fixed-width integers of the client: their bounds, their saturating operations and the
    power-of-two facts that shifts rest on. */
module Machine {

  const U64_SPAN: int := 0x1_0000_0000_0000_0000
  const U64_MAX: int := U64_SPAN - 1
  const I64_MAX: int := 0x7FFF_FFFF_FFFF_FFFF
  const I64_MIN: int := -0x8000_0000_0000_0000

  const U32_SPAN: int := 0x1_0000_0000

  type U32 = x: int | 0 <= x <= 0xFFFF_FFFF
  type U64 = x: int | 0 <= x <= 0xFFFF_FFFF_FFFF_FFFF
  type I64 = x: int | -0x8000_0000_0000_0000 <= x <= 0x7FFF_FFFF_FFFF_FFFF

  datatype Option<+T> = None | Some(value: T)

  function Min(a: int, b: int): (r: int)
    ensures r <= a && r <= b && (r == a || r == b)
  {
    if a <= b then a else b
  }

  function Max(a: int, b: int): (r: int)
    ensures a <= r && b <= r && (r == a || r == b)
  {
    if a <= b then b else a
  }

  /** `i64::saturating_add`. */
  function SatAddI64(a: I64, b: I64): (r: I64)
    ensures I64_MIN <= a + b <= I64_MAX ==> r == a + b
    ensures a + b > I64_MAX ==> r == I64_MAX
    ensures a + b < I64_MIN ==> r == I64_MIN
  {
    if a + b > I64_MAX then I64_MAX else if a + b < I64_MIN then I64_MIN else a + b
  }

  /** `u64::saturating_mul`. */
  function SatMulU64(a: U64, b: U64): (r: U64)
    ensures a * b <= U64_MAX ==> r == a * b
    ensures a * b > U64_MAX ==> r == U64_MAX
  {
    if a * b > U64_MAX then U64_MAX
    else assert a * b >= 0 by { ProductNonNegative(a, b); } a * b
  }

  /** `u64::saturating_sub`. */
  function SatSubU64(a: U64, b: U64): (r: U64)
    ensures r == Max(a - b, 0)
  {
    if a < b then 0 else a - b
  }

  /** `rng.gen_range(0..bound)`: over all draws, every value of the range and no other.
      The precondition is the one `gen_range` panics without. */
  function GenRange(draw: nat, bound: int): (r: nat)
    requires 0 < bound
    ensures 0 <= r < bound
    ensures draw < bound ==> r == draw
  {
    draw % bound
  }

  /** The low 64 bits of a number. */
  function Word(x: nat): (w: U64)
    ensures x <= U64_MAX ==> w == x
  {
    x % 0x1_0000_0000_0000_0000
  }

  lemma WordUnique(x: nat, q: nat, r: nat)
    requires x == q * 0x1_0000_0000_0000_0000 + r && r <= U64_MAX
    ensures Word(x) == r
  {
  }

  /** Dropping the top bits first does not change a doubled word. */
  lemma WordDouble(x: nat)
    ensures Word(2 * Word(x)) == Word(2 * x)
  {
    var q, r := x / 0x1_0000_0000_0000_0000, Word(x);
    assert x == q * 0x1_0000_0000_0000_0000 + r;
    if 2 * r <= U64_MAX {
      WordUnique(2 * x, 2 * q, 2 * r);
      WordUnique(2 * r, 0, 2 * r);
    } else {
      WordUnique(2 * x, 2 * q + 1, 2 * r - 0x1_0000_0000_0000_0000);
      WordUnique(2 * r, 1, 2 * r - 0x1_0000_0000_0000_0000);
    }
  }

  lemma WordEven(x: nat)
    ensures Word(2 * x) % 2 == 0
  {
    WordDouble(x);
    var r := Word(x);
    if 2 * r > U64_MAX {
      WordUnique(2 * r, 1, 2 * r - 0x1_0000_0000_0000_0000);
    }
  }

  function Pow2(n: nat): (r: nat)
    ensures r >= 1
  {
    if n == 0 then 1 else 2 * Pow2(n - 1)
  }

  lemma ProductNonNegative(a: int, b: int)
    requires a >= 0 && b >= 0
    ensures a * b >= 0
  {
  }

  lemma ProductMonotone(a: int, b: int, c: int)
    requires 0 <= a && b <= c
    ensures a * b <= a * c
  {
  }

  lemma {:induction false} Pow2Monotone(m: nat, n: nat)
    requires m <= n
    ensures Pow2(m) <= Pow2(n)
    decreases n
  {
    if m < n {
      Pow2Monotone(m, n - 1);
    }
  }

  lemma Pow2At64()
    ensures Pow2(64) == U64_SPAN
    ensures Pow2(63) == 0x8000_0000_0000_0000
  {
    assert Pow2(8) == 0x100;
    assert Pow2(16) == 0x1_0000;
    assert Pow2(24) == 0x100_0000;
    assert Pow2(32) == 0x1_0000_0000;
    assert Pow2(40) == 0x100_0000_0000;
    assert Pow2(48) == 0x1_0000_0000_0000;
    assert Pow2(56) == 0x100_0000_0000_0000;
    assert Pow2(63) == 0x8000_0000_0000_0000;
  }
}
