/** Values of constant evaluation and their checked arithmetic (crates/glyim-const-eval/src/value.rs). */
module ConstValue {
  import opened Wrappers
  import N = Int64

  type Name = nat

  datatype IntTy = I8 | I16 | I32 | I64 | Isize

  datatype UintTy = U8 | U16 | U32 | U64 | Usize

  /** Floats are not part of this model. */
  datatype Value =
    | IntV(i: int, ity: IntTy)
    | UintV(u: int, uty: UintTy)
    | BoolV(b: bool)
    | CharV(c: nat)
    | StringV(name: Name)
    | UnitV
    | TupleV(elems: seq<Value>)
    | ArrayV(elems: seq<Value>)
    | StructV(fields: seq<FieldValue>)
    | RangeV(start: Option<Value>, end: Option<Value>, inclusive: bool)
    | CtorV(adt: nat)
    | VariantV(adt: nat, variant: nat)
    | FnV(fn: nat)

  datatype FieldValue = FieldValue(name: Name, value: Value)

  const TWO_127: int := 0x8000_0000_0000_0000_0000_0000_0000_0000
  const TWO_128: int := 0x1_0000_0000_0000_0000_0000_0000_0000_0000

  // ----- ranges of the types -----

  function IntBits(t: IntTy, pointerWidth: nat): nat {
    match t
    case I8 => 8
    case I16 => 16
    case I32 => 32
    case I64 => 64
    case Isize => if pointerWidth == 64 then 64 else 32
  }

  function UintBits(t: UintTy, pointerWidth: nat): nat {
    match t
    case U8 => 8
    case U16 => 16
    case U32 => 32
    case U64 => 64
    case Usize => if pointerWidth == 64 then 64 else 32
  }

  /** 2^bits for the widths in use. */
  function Span(bits: nat): (s: int)
    ensures s > 0
  {
    if bits == 8 then 0x100
    else if bits == 16 then 0x1_0000
    else if bits == 32 then 0x1_0000_0000
    else 0x1_0000_0000_0000_0000
  }

  predicate IntFits(v: int, t: IntTy, pointerWidth: nat) {
    var half := Span(IntBits(t, pointerWidth)) / 2;
    -half <= v < half
  }

  predicate UintFits(v: int, t: UintTy, pointerWidth: nat) {
    0 <= v < Span(UintBits(t, pointerWidth))
  }

  /** The value itself when it fits its type. */
  function ValidateRange(v: Value, pointerWidth: nat): Option<Value> {
    match v
    case IntV(i, t) => if IntFits(i, t, pointerWidth) then Some(v) else None
    case UintV(u, t) => if UintFits(u, t, pointerWidth) then Some(v) else None
    case _ => Some(v)
  }

  // ----- checked arithmetic on 128 bits -----

  datatype ArithOp = Add | Sub | Mul | Div | Rem

  /** The remainder that goes with truncated division. */
  function Remainder(a: int, b: int): int
    requires b != 0
  {
    if a < 0 then 0 - N.Abs(a) % N.Abs(b) else N.Abs(a) % N.Abs(b)
  }

  /** The mathematical result; undefined for a zero divisor. */
  function Exact(op: ArithOp, a: int, b: int): Option<int> {
    match op
    case Add => Some(a + b)
    case Sub => Some(a - b)
    case Mul => Some(a * b)
    case Div => if b == 0 then None else Some(N.TruncDiv(a, b))
    case Rem => if b == 0 then None else Some(Remainder(a, b))
  }

  /** i128 checked arithmetic: MIN / -1 and MIN % -1 are overflows too. */
  function CheckedI128(op: ArithOp, a: int, b: int): Option<int> {
    var r := Exact(op, a, b);
    if r.None? then None
    else if (op == Div || op == Rem) && a == -TWO_127 && b == -1 then None
    else if -TWO_127 <= r.value < TWO_127 then r
    else None
  }

  function CheckedU128(op: ArithOp, a: int, b: int): Option<int> {
    var r := Exact(op, a, b);
    if r.Some? && 0 <= r.value < TWO_128 then r else None
  }

  /** Both operands of one integer type, or nothing. */
  function CheckedOp(op: ArithOp, x: Value, y: Value): Option<Value> {
    if x.IntV? && y.IntV? && x.ity == y.ity then
      var r := CheckedI128(op, x.i, y.i);
      if r.Some? then Some(IntV(r.value, x.ity)) else None
    else if x.UintV? && y.UintV? && x.uty == y.uty then
      var r := CheckedU128(op, x.u, y.u);
      if r.Some? then Some(UintV(r.value, x.uty)) else None
    else None
  }

  function CheckedNeg(x: Value): Option<Value> {
    if x.IntV? && x.i != -TWO_127 then Some(IntV(0 - x.i, x.ity)) else None
  }

  // ----- conversions -----

  function Signed(v: int, span: int): int
    requires span > 0
  {
    (v + span / 2) % span - span / 2
  }

  function AsI128(v: Value): Option<int> {
    match v
    case IntV(i, _) => Some(i)
    case UintV(u, _) => Some(Signed(u, TWO_128))
    case _ => None
  }

  function AsU128(v: Value): Option<int> {
    match v
    case IntV(i, _) => Some(i % TWO_128)
    case UintV(u, _) => Some(u)
    case _ => None
  }

  /** Anything else, the pointer-sized types included, is not a cast target. */
  datatype CastTarget = ToInt(ity: IntTy) | ToUint(uty: UintTy) | ToBool | ToOther

  /** Casts cut to the target's width; only sized integer types and bool can be cast to. */
  function CastTo(v: Value, t: CastTarget): Option<Value> {
    match t
    case ToInt(ity) =>
      if ity.Isize? || AsI128(v).None? then None
      else Some(IntV(Signed(AsI128(v).value, Span(IntBits(ity, 64))), ity))
    case ToUint(uty) =>
      if uty.Usize? || AsU128(v).None? then None
      else Some(UintV(AsU128(v).value % Span(UintBits(uty, 64)), uty))
    case ToBool => Some(BoolV(AsI128(v).Some? && AsI128(v).value != 0))
    case ToOther => None
  }

  // ----- every integer of a value in its range -----

  predicate InRange(v: Value, pointerWidth: nat) {
    match v
    case IntV(i, t) => IntFits(i, t, pointerWidth)
    case UintV(u, t) => UintFits(u, t, pointerWidth)
    case TupleV(elems) => AllInRange(elems, pointerWidth)
    case ArrayV(elems) => AllInRange(elems, pointerWidth)
    case StructV(fields) => forall k :: 0 <= k < |fields| ==> InRange(fields[k].value, pointerWidth)
    case RangeV(start, end, _) =>
      && (start.Some? ==> InRange(start.value, pointerWidth)) && (end.Some? ==> InRange(end.value, pointerWidth))
      && (start.Some? && end.Some? ==> SameType(start.value, end.value))
    case _ => true
  }

  predicate AllInRange(vs: seq<Value>, pointerWidth: nat) {
    forall k :: 0 <= k < |vs| ==> InRange(vs[k], pointerWidth)
  }

  predicate SameType(x: Value, y: Value) {
    (x.IntV? && y.IntV? && x.ity == y.ity) || (x.UintV? && y.UintV? && x.uty == y.uty)
      || (!IsInteger(x) && !IsInteger(y))
  }

  predicate IsInteger(x: Value) {
    x.IntV? || x.UintV?
  }
}
