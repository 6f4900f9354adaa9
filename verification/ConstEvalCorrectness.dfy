/** Constant evaluation: exact arithmetic, and casts that land in range. */
module ConstEvalCorrectness {
  import opened Arithmetic
  import opened ConstEval
  import opened ConstValue
  import opened Wrappers
  import N = Int64

  // ----- arithmetic -----

  lemma QuotientNoLarger(a: int, b: int)
    requires b != 0
    ensures N.Abs(N.TruncDiv(a, b)) <= N.Abs(a) && N.Abs(Remainder(a, b)) < N.Abs(b)
  {
    N.QuotientBound(N.Abs(a), N.Abs(b));
  }

  /**
  Truncated division and its remainder make up the dividend, the remainder smaller than the divisor
  and of the dividend's sign.
  */
  lemma DivisionLaw(a: int, b: int)
    requires b != 0
    ensures var q, r := N.TruncDiv(a, b), Remainder(a, b);
            a == q * b + r && N.Abs(r) < N.Abs(b) && (r == 0 || (r < 0) == (a < 0))
  {
    N.EuclidLaw(N.Abs(a), N.Abs(b));
    var d, t: int := N.Abs(b), N.Abs(a) / N.Abs(b);
    N.SignLaw(d, t);
    assert N.TruncDiv(a, b) * b == if a < 0 then 0 - d * t else d * t;
  }

  lemma ProductBound(a: int, b: int, m: nat)
    requires N.Abs(a) <= m && N.Abs(b) <= m
    ensures N.Abs(a * b) <= m * m
  {
    var x: int, y: int := N.Abs(a), N.Abs(b);
    ProductMonotone(x, y, m, m);
    NonNegativeProduct(x, y);
    N.SignLaw(x, y);
    assert a == x || a == 0 - x;
    assert b == y || b == 0 - y;
  }

  const TWO_64: nat := 0x1_0000_0000_0000_0000

  lemma SquareOfTwo64()
    ensures TWO_64 * TWO_64 == TWO_128 && 0x8000_0000_0000_0000 * 0x8000_0000_0000_0000 < TWO_127
  {
  }

  lemma IntWidth(v: int, t: IntTy, pointerWidth: nat)
    requires IntFits(v, t, pointerWidth)
    ensures N.Abs(v) <= 0x8000_0000_0000_0000
  {
  }

  /** The exact result of two fitting operands never leaves 128 bits before its range is checked. */
  lemma SignedStaysWide(op: ArithOp, a: int, b: int, t: IntTy, pointerWidth: nat)
    requires IntFits(a, t, pointerWidth) && IntFits(b, t, pointerWidth)
    ensures CheckedI128(op, a, b) == Exact(op, a, b)
  {
    IntWidth(a, t, pointerWidth);
    IntWidth(b, t, pointerWidth);
    if op == Mul {
      ProductBound(a, b, 0x8000_0000_0000_0000);
      SquareOfTwo64();
    } else if b != 0 {
      QuotientNoLarger(a, b);
    }
  }

  lemma UnsignedStaysWide(op: ArithOp, a: int, b: int, t: UintTy, pointerWidth: nat)
    requires UintFits(a, t, pointerWidth) && UintFits(b, t, pointerWidth)
    ensures Exact(op, a, b).Some? && 0 <= Exact(op, a, b).value ==> CheckedU128(op, a, b) == Exact(op, a, b)
    ensures Exact(op, a, b).None? || Exact(op, a, b).value < 0 ==> CheckedU128(op, a, b) == None
  {
    if op == Mul {
      BelowProduct(a, b);
    } else if b != 0 {
      QuotientNoLarger(a, b);
    }
  }

  lemma BelowProduct(a: int, b: int)
    requires 0 <= a < TWO_64 && 0 <= b < TWO_64
    ensures 0 <= a * b < TWO_128
  {
    SquareOfTwo64();
    NonNegativeProduct(a, b);
    ProductMonotone(a, b, TWO_64 - 1, TWO_64 - 1);
  }

  /** What an operand stands for. */
  function Number(v: Value): int
    requires IsInteger(v)
  {
    if v.IntV? then v.i else v.u
  }

  function OfType(n: int, like: Value): Value
    requires IsInteger(like)
  {
    if like.IntV? then IntV(n, like.ity) else UintV(n, like.uty)
  }

  /**
  On two integers of one type, each in its range, every arithmetic operator gives exactly the
  mathematical result when that fits the type at this pointer width, and an error otherwise.
  */
  lemma ArithmeticExact(op: ArithOp, x: Value, y: Value, pointerWidth: nat)
    requires IsInteger(x) && IsInteger(y) && SameType(x, y) && InRange(x, pointerWidth) && InRange(y, pointerWidth)
    ensures var exact := Exact(op, Number(x), Number(y));
            ApplyArith(op, x, y, pointerWidth) ==
            if exact.None? then Err(DivisionByZero)
            else if InRange(OfType(exact.value, x), pointerWidth) then Ok(OfType(exact.value, x))
            else Err(Overflow)
  {
    hide IntFits, UintFits, Exact, CheckedI128, CheckedU128;
    if x.IntV? {
      SignedStaysWide(op, x.i, y.i, x.ity, pointerWidth);
      assert Exact(op, x.i, y.i).None? <==> (op == Div || op == Rem) && y.i == 0 by {
        ExactDefined(op, x.i, y.i);
      }
    } else {
      UnsignedStaysWide(op, x.u, y.u, x.uty, pointerWidth);
      ExactDefined(op, x.u, y.u);
      NegativeDoesNotFit(x.uty, pointerWidth);
    }
  }

  lemma ExactDefined(op: ArithOp, a: int, b: int)
    ensures Exact(op, a, b).None? <==> (op == Div || op == Rem) && b == 0
  {
  }

  lemma NegativeDoesNotFit(t: UintTy, pointerWidth: nat)
    ensures forall v: int :: v < 0 ==> !UintFits(v, t, pointerWidth)
  {
  }

  /** Negation too: exact when it fits, an error otherwise, and never defined for an unsigned value. */
  lemma NegationExact(p: Program, x: Value)
    requires IsInteger(x) && InRange(x, p.pointerWidth)
    ensures ApplyUnOp(p, Neg, x) ==
            if x.IntV? && IntFits(0 - x.i, x.ity, p.pointerWidth) then Ok(IntV(0 - x.i, x.ity)) else Err(Overflow)
  {
    if x.IntV? {
      IntWidth(x.i, x.ity, p.pointerWidth);
      hide IntFits;
      assert CheckedNeg(x) == Some(IntV(0 - x.i, x.ity));
    }
  }

  // ----- casts -----

  lemma SignedFits(v: int, span: int)
    requires span > 0 && span % 2 == 0
    ensures -(span / 2) <= Signed(v, span) < span / 2
    ensures (Signed(v, span) - v) % span == 0
  {
    var x := v + span / 2;
    assert x == span * (x / span) + x % span;
    assert Signed(v, span) - v == span * (0 - x / span);
    MulMod(0 - x / span, span);
    assert span * (0 - x / span) == (0 - x / span) * span;
  }

  /** A cast that is allowed lands in the range of its target. */
  lemma CastInRange(v: Value, t: CastTarget, pointerWidth: nat)
    ensures CastTo(v, t).Some? ==> InRange(CastTo(v, t).value, pointerWidth)
  {
    if t.ToInt? && !t.ity.Isize? && AsI128(v).Some? {
      SignedFits(AsI128(v).value, Span(IntBits(t.ity, 64)));
    }
  }

  /** A cast to bool looks at integers only: it keeps a boolean just when that is false. */
  lemma BoolCastLost(b: bool)
    ensures CastTo(BoolV(b), ToBool) == Some(BoolV(false))
    ensures CastTo(BoolV(b), ToBool) == Some(BoolV(b)) <==> !b
  {
  }
}
