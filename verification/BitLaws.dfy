/** What the 64-bit operations mean, told by congruence, order and single bits. */
module BitLaws {
  import opened Int64

  predicate Congruent(x: int, y: int) {
    (x - y) % TWO_64 == 0
  }

  /** Wrapping picks the one 64-bit number congruent to its argument. */
  lemma WrapIs(x: int, r: i64)
    ensures Wrap(x) == r <==> Congruent(r, x)
  {
    var w := Wrap(x);
    assert x + TWO_63 == TWO_64 * ((x + TWO_63) / TWO_64) + (x + TWO_63) % TWO_64;
    assert w - x == TWO_64 * -((x + TWO_63) / TWO_64);
    Multiple(w - x, -((x + TWO_63) / TWO_64));
    if Congruent(r, x) {
      CongruentTogether(r, w, x);
      SmallMultiple(r - w);
    }
  }

  lemma Multiple(d: int, q: int)
    requires d == TWO_64 * q
    ensures d % TWO_64 == 0
  {
  }

  lemma CongruentTogether(a: int, b: int, x: int)
    requires Congruent(a, x) && Congruent(b, x)
    ensures (a - b) % TWO_64 == 0
  {
    var p, q := (a - x) / TWO_64, (b - x) / TWO_64;
    assert a - x == TWO_64 * p && b - x == TWO_64 * q;
    Multiple(a - b, p - q);
  }

  lemma SmallMultiple(d: int)
    requires d % TWO_64 == 0 && -TWO_64 < d < TWO_64
    ensures d == 0
  {
  }

  // ----- single bits -----

  /** Bit k of the two's complement form of x. */
  predicate Bit(x: int, k: nat) {
    x / Pow2(k) % 2 == 1
  }

  lemma DivTwice(x: int, p: int)
    requires p > 0
    ensures x / (2 * p) == x / 2 / p
  {
    var q := x / 2 / p;
    var r := x / 2 % p;
    assert x / 2 == p * q + r;
    var rest := 2 * r + x % 2;
    assert x == 2 * (x / 2) + x % 2;
    Rearranged(x, x / 2, p, q, r);
    assert 0 <= rest < 2 * p;
    QuotientIs(x, 2 * p, q, rest);
  }

  lemma Rearranged(x: int, half: int, p: int, q: int, r: int)
    requires x == 2 * half + x % 2 && half == p * q + r
    ensures x == (2 * p) * q + (2 * r + x % 2)
  {
  }

  lemma QuotientIs(x: int, d: int, q: int, r: int)
    requires d > 0 && x == d * q + r && 0 <= r < d
    ensures x / d == q
  {
    var q', r' := x / d, x % d;
    assert x == d * q' + r';
    assert d * (q - q') == r' - r by {
      Distribute(d, q, q');
    }
    if q != q' {
      Larger(d, q - q');
    }
  }

  lemma Distribute(d: int, q: int, q': int)
    ensures d * (q - q') == d * q - d * q'
  {
  }

  lemma Product(d: nat, k: nat)
    ensures d * k >= 0
  {
  }

  lemma Larger(d: int, k: int)
    requires d > 0 && k != 0
    ensures d * k >= d || d * k <= -d
  {
    if k > 0 {
      Distribute(d, k, 1);
      Product(d, k - 1);
    } else {
      Distribute(d, k, -1);
      Product(d, -(k + 1));
      Distribute(d, 0, -(k + 1));
    }
  }

  lemma BitNext(x: int, k: nat)
    ensures Bit(x, k + 1) <==> Bit(x / 2, k)
    ensures Bit(x, 0) <==> x % 2 == 1
  {
    assert Pow2(k + 1) == 2 * Pow2(k) && Pow2(0) == 1;
    DivTwice(x, Pow2(k));
  }

  /** Each of the low bits is the operation on the operands' bits. */
  lemma {:induction false} BitsBit(op: BitOp, a: nat, b: nat, width: nat, k: nat)
    requires k < width
    ensures Bit(Bits(op, a, b, width), k) <==> BitOf(op, Bit(a, k), Bit(b, k))
    decreases width
  {
    hide Bit, BitOf;
    var low, rest := if BitOf(op, a % 2 == 1, b % 2 == 1) then 1 else 0, Bits(op, a / 2, b / 2, width - 1);
    var r := Bits(op, a, b, width);
    assert r == low + 2 * rest && r / 2 == rest && r % 2 == low;
    if k == 0 {
      BitNext(r, 0);
      BitNext(a, 0);
      BitNext(b, 0);
    } else {
      BitNext(r, k - 1);
      BitNext(a, k - 1);
      BitNext(b, k - 1);
      BitsBit(op, a / 2, b / 2, width - 1, k - 1);
    }
  }

  lemma {:induction false} PowerSplit(j: nat, k: nat)
    ensures Pow2(j + k) == Pow2(j) * Pow2(k)
    decreases j
  {
    if j > 0 {
      PowerSplit(j - 1, k);
      assert Pow2(j + k) == 2 * (Pow2(j - 1) * Pow2(k));
    }
  }

  lemma Squared(k: nat, p: nat)
    requires Pow2(k) == p
    ensures Pow2(k + k) == p * p
  {
    PowerSplit(k, k);
  }

  lemma Pow64()
    ensures Pow2(64) == TWO_64
  {
    hide Pow2;
    Pow4();
    Squared(4, 16);
    Squared(8, 256);
    Squared(16, 0x1_0000);
    Squared(32, 0x1_0000_0000);
  }

  lemma Pow4()
    ensures Pow2(4) == 16
  {
    assert Pow2(2) == 4;
  }

  lemma {:induction false} EvenShift(x: int, q: int, k: nat, n: nat)
    requires k < n
    ensures Bit(x + Pow2(n) * q, k) <==> Bit(x, k)
    decreases k
  {
    hide Bit;
    var half := Pow2(n - 1) * q;
    assert Pow2(n) * q == 2 * half by {
      assert Pow2(n) == 2 * Pow2(n - 1);
    }
    assert (x + 2 * half) / 2 == x / 2 + half && (x + 2 * half) % 2 == x % 2;
    if k == 0 {
      BitNext(x, 0);
      BitNext(x + 2 * half, 0);
    } else {
      BitNext(x, k - 1);
      BitNext(x + 2 * half, k - 1);
      EvenShift(x / 2, q, k - 1, n - 1);
    }
  }

  /** Congruent numbers have the same low 64 bits. */
  lemma CongruentBits(x: int, y: int, k: nat)
    requires Congruent(x, y) && k < 64
    ensures Bit(x, k) <==> Bit(y, k)
  {
    hide Bit;
    var q := (x - y) / TWO_64;
    assert x == y + TWO_64 * q;
    Pow64();
    EvenShift(y, q, k, 64);
  }

  lemma WrapBits(x: int, k: nat)
    requires k < 64
    ensures Bit(Wrap(x), k) <==> Bit(x, k)
  {
    hide Bit, Wrap;
    WrapIs(x, Wrap(x));
    CongruentBits(Wrap(x), x, k);
  }

  lemma UnsignedBits(a: i64, k: nat)
    requires k < 64
    ensures Bit(a % TWO_64, k) <==> Bit(a, k)
  {
    hide Bit;
    assert a % TWO_64 - a == TWO_64 * -(a / TWO_64);
    Multiple(a % TWO_64 - a, -(a / TWO_64));
    CongruentBits(a % TWO_64, a, k);
  }

  /** Each bit of the result of `&`, `|` and `^` is theirs of the operands' bits. */
  lemma BitwiseBits(a: i64, b: i64, k: nat)
    requires k < 64
    ensures Bit(Bitwise(AndBits, a, b), k) <==> Bit(a, k) && Bit(b, k)
    ensures Bit(Bitwise(OrBits, a, b), k) <==> Bit(a, k) || Bit(b, k)
    ensures Bit(Bitwise(XorBits, a, b), k) <==> Bit(a, k) != Bit(b, k)
  {
    hide Bit, Wrap, Bits;
    UnsignedBits(a, k);
    UnsignedBits(b, k);
    forall op: BitOp
      ensures Bit(Bitwise(op, a, b), k) <==> BitOf(op, Bit(a, k), Bit(b, k))
    {
      BitsBit(op, a % TWO_64, b % TWO_64, 64, k);
      WrapBits(Bits(op, a % TWO_64, b % TWO_64, 64), k);
    }
  }

  /** Flipping every bit. */
  lemma FlippedBits(a: i64, k: nat)
    requires k < 64
    ensures Bit(-1 - a, k) <==> !Bit(a, k)
  {
    var p := Pow2(k);
    var q, r := a / p, a % p;
    assert a == p * q + r;
    assert -1 - a == p * (-1 - q) + (p - 1 - r) by {
      Distribute(p, -1, q);
    }
    QuotientIs(-1 - a, p, -1 - q, p - 1 - r);
  }

  /** A left shift multiplies, modulo 2^64; a right shift rounds the quotient down. */
  lemma Shifts(a: i64, b: i64)
    ensures Congruent(Shl(a, b), a * Pow2(b % 64))
    ensures Shr(a, b) * Pow2(b % 64) <= a < (Shr(a, b) + 1) * Pow2(b % 64)
  {
    hide Wrap, Pow2;
    var p := Pow2(b % 64);
    WrapIs(a * p, Shl(a, b));
    var q := a / p;
    assert a == p * q + a % p;
    FloorSmall(a, p);
    WrapIs(q, q);
    assert q * p == p * q && (q + 1) * p == p * q + p;
  }

  lemma FloorSmall(a: i64, p: nat)
    requires p > 0
    ensures -0x8000_0000_0000_0000 <= a / p < 0x8000_0000_0000_0000
  {
    var q := a / p;
    assert a == p * q + a % p;
    if q >= 0 {
      Grows(p, q);
    } else {
      Grows(p, -q - 1);
      Distribute(p, -1, -q - 1);
    }
  }

  lemma Grows(p: nat, q: int)
    requires p > 0 && q >= 0
    ensures p * q >= q
  {
    assert p * q == q + (p - 1) * q;
    assert (p - 1) * q >= 0;
  }
}
