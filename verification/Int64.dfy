/** Two's-complement 64-bit arithmetic, as Rust's `i64` methods define it. */
module Int64 {
  import opened Wrappers

  const TWO_63: int := 0x8000_0000_0000_0000
  const TWO_64: int := 0x1_0000_0000_0000_0000

  type u8 = x: int | 0 <= x < 0x100
  type u32 = x: int | 0 <= x < 0x1_0000_0000
  type i64 = x: int | -0x8000_0000_0000_0000 <= x < 0x8000_0000_0000_0000

  const U32_MAX: u32 := 0xFFFF_FFFF
  const USIZE_MAX: int := 0xFFFF_FFFF_FFFF_FFFF
  const ISIZE_MAX: int := 0x7FFF_FFFF_FFFF_FFFF
  const I64_MIN: i64 := -0x8000_0000_0000_0000

  /** The representative of x modulo 2^64 that fits an `i64`. */
  function Wrap(x: int): i64 {
    (x + TWO_63) % TWO_64 - TWO_63
  }

  /** `v as usize` for an `i64` on a 64-bit host. */
  function AsUsize(v: i64): nat {
    if v < 0 then v + TWO_64 else v
  }

  function Bool(b: bool): i64 {
    if b then 1 else 0
  }

  function Abs(x: int): nat {
    if x < 0 then -x else x
  }

  /** Quotient truncated toward zero. */
  function TruncDiv(a: int, b: int): int
    requires b != 0
  {
    if (a < 0) == (b < 0) then Abs(a) / Abs(b) else -(Abs(a) / Abs(b))
  }

  lemma ScaleLaw(d: nat, q: nat)
    requires d > 0
    ensures d * q >= q
    ensures d > 1 ==> d * q >= 2 * q
  {
  }

  lemma QuotientBound(n: nat, d: nat)
    requires d > 0
    ensures 0 <= n / d <= n
    ensures d > 1 && n > 0 ==> n / d < n
  {
    EuclidLaw(n, d);
    ScaleLaw(d, n / d);
  }

  /** `checked_div`: undefined for a zero divisor and for MIN / -1. */
  function CheckedDiv(a: i64, b: i64): Option<i64> {
    if b == 0 || (a == I64_MIN && b == -1) then None
    else
      QuotientBound(Abs(a), Abs(b));
      Some(TruncDiv(a, b))
  }

  /** `checked_rem`: undefined exactly where `checked_div` is. */
  function CheckedRem(a: i64, b: i64): Option<i64> {
    if b == 0 || (a == I64_MIN && b == -1) then None
    else
      var m: int := Abs(a) % Abs(b);
      Some(if a < 0 then -m else m)
  }

  lemma EuclidLaw(n: nat, d: nat)
    requires d > 0
    ensures n == d * (n / d) + n % d
  {
  }

  lemma SignLaw(d: int, t: int)
    ensures t * d == d * t && (-t) * d == -(d * t) && t * (-d) == -(d * t) && (-t) * (-d) == d * t
  {
  }

  /** The checked operations satisfy a == q * b + r with |r| < |b| and r of the sign of a. */
  lemma DivRemLaw(a: i64, b: i64)
    ensures CheckedDiv(a, b).Some? <==> CheckedRem(a, b).Some?
    ensures CheckedDiv(a, b).Some? ==>
              var q, r := CheckedDiv(a, b).value, CheckedRem(a, b).value;
              a == q * b + r && Abs(r) < Abs(b) && (r == 0 || (r < 0) == (a < 0))
  {
    if CheckedDiv(a, b).Some? {
      EuclidLaw(Abs(a), Abs(b));
      var n, d, t: int := Abs(a), Abs(b), Abs(a) / Abs(b);
      assert n == d * t + n % d;
      SignLaw(d, t);
      assert TruncDiv(a, b) * b == if a < 0 then -(d * t) else d * t;
    }
  }

  function Pow2(k: nat): (p: nat)
    ensures p > 0
  {
    if k == 0 then 1 else 2 * Pow2(k - 1)
  }

  datatype BitOp = AndBits | OrBits | XorBits

  function BitOf(op: BitOp, x: bool, y: bool): bool {
    match op
    case AndBits => x && y
    case OrBits => x || y
    case XorBits => x != y
  }

  /** Apply op to the low k bits of two non-negative numbers. */
  function Bits(op: BitOp, a: nat, b: nat, k: nat): (r: nat)
    ensures r < Pow2(k)
  {
    if k == 0 then 0
    else (if BitOf(op, a % 2 == 1, b % 2 == 1) then 1 else 0) + 2 * Bits(op, a / 2, b / 2, k - 1)
  }

  function Bitwise(op: BitOp, a: i64, b: i64): i64 {
    Wrap(Bits(op, a % TWO_64, b % TWO_64, 64))
  }

  /** `wrapping_shl(b as u32)`: only the low six bits of the amount count. */
  function Shl(a: i64, b: i64): i64 {
    Wrap(a * Pow2(b % 64))
  }

  /** `wrapping_shr(b as u32)` on a signed value: rounds toward minus infinity. */
  function Shr(a: i64, b: i64): i64 {
    Wrap(a / Pow2(b % 64))
  }
}
