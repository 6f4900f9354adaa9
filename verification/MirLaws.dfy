/**
The meaning of MIR in plain terms, and what bytes a constant becomes: laws that the reference in MirRun
and the emitter keep, told without their functions (crates/glyim-codegen/src/lib.rs, emit_operand).
*/
module MirLaws {
  import opened BitLaws
  import opened CodegenSpec
  import opened Int64
  import opened Mir
  import opened MirRun
  import opened Wire
  import opened Wrappers

  // ----- bytes -----

  function Digit(bs: Bytes, k: nat): int
    requires k < |bs|
  {
    bs[k]
  }

  /** The number eight bytes stand for, least significant first. */
  function Word64(bs: Bytes): nat
    requires |bs| == 8
  {
    Digit(bs, 0) + 0x100 * Digit(bs, 1) + 0x1_0000 * Digit(bs, 2) + 0x100_0000 * Digit(bs,
                                                                                       3) + 0x1_0000_0000 * Digit(bs, 4)
    + 0x100_0000_0000 * Digit(bs, 5) + 0x1_0000_0000_0000 * Digit(bs, 6) + 0x100_0000_0000_0000 * Digit(bs, 7)
  }

  function Word32(bs: Bytes): nat
    requires |bs| == 4
  {
    Digit(bs, 0) + 0x100 * Digit(bs, 1) + 0x1_0000 * Digit(bs, 2) + 0x100_0000 * Digit(bs, 3)
  }

  lemma FromLeOne(bs: Bytes)
    requires bs != []
    ensures FromLe(bs) == bs[0] + 256 * FromLe(bs[1..])
  {
  }

  lemma FromLe4(bs: Bytes)
    requires |bs| == 4
    ensures FromLe(bs) == Word32(bs)
  {
    hide FromLe;
    FromLeOne(bs);
    FromLeOne(bs[1..]);
    FromLeOne(bs[2..]);
    FromLeOne(bs[3..]);
    assert bs[1..][1..] == bs[2..] && bs[2..][1..] == bs[3..] && bs[3..][1..] == [];
    assert FromLe([]) == 0 by {
      NoBytes();
    }
  }

  lemma NoBytes()
    ensures FromLe([]) == 0
  {
  }

  lemma {:induction false} FromLeSplit(a: Bytes, b: Bytes)
    ensures FromLe(a + b) == FromLe(a) + Pow256(|a|) * FromLe(b)
    decreases |a|
  {
    if a == [] {
      assert a + b == b;
    } else {
      assert (a + b)[0] == a[0] && (a + b)[1..] == a[1..] + b;
      FromLeSplit(a[1..], b);
      Scaled(Pow256(|a| - 1), FromLe(b));
    }
  }

  lemma Scaled(p: nat, n: nat)
    ensures 256 * (p * n) == (256 * p) * n
  {
  }

  lemma FromLe8(bs: Bytes)
    requires |bs| == 8
    ensures FromLe(bs) == Word64(bs)
  {
    hide FromLe, Pow256;
    assert bs == bs[..4] + bs[4..];
    FromLeSplit(bs[..4], bs[4..]);
    FromLe4(bs[..4]);
    FromLe4(bs[4..]);
    Pow256Values();
  }

  /** Local numbers, block numbers and lengths are written in four bytes, least significant first. */
  lemma WordBytes(v: u32)
    ensures Word32(U32Le(v)) == v
  {
    hide Word32, U32Le;
    U32RoundTrip(v);
    FromLe4(U32Le(v));
  }

  lemma LongBytes(v: i64)
    ensures Congruent(Word64(I64Le(v)), v)
  {
    hide Word64, ToLe;
    Pow256Values();
    FromToLe(v % TWO_64, 8);
    FromLe8(I64Le(v));
    assert v % TWO_64 - v == TWO_64 * -(v / TWO_64);
    Multiple(v % TWO_64 - v, -(v / TWO_64));
  }

  // ----- constants -----

  /** The 64-bit numbers a constant may be represented by; there is just one. */
  predicate Denotes(c: MirConst, n: int) {
    match c
    case CInt(v) => Congruent(n, v)
    case CUint(v) => Congruent(n, v)
    case CBool(true) => n == 1
    case CBool(false) => n == 0
    case CChar(code) => n == code
    case CUnit => n == 0
    case CUnresolved => true
  }

  /**
  Behind the opcode of a load stand eight bytes that are 1 for true and 0 for false, the number modulo
  2^64, the code point of a character, and 0 for unit.
  */
  lemma ConstantBytes(c: MirConst)
    ensures |OperandBytes(Constant(c))| == 9 && OperandBytes(Constant(c))[0] == 0x01
    ensures Denotes(c, Word64(OperandBytes(Constant(c))[1..]))
  {
    hide I64Le, Word64, Wrap;
    var bytes := OperandBytes(Constant(c));
    assert bytes[1..] == I64Le(ConstValue(c));
    LongBytes(ConstValue(c));
    ConstantValue(c);
    if c.CInt? || c.CUint? {
      var v := if c.CInt? then c.i else c.u;
      Transitive(Word64(bytes[1..]), ConstValue(c), v);
    } else {
      WordBound(bytes[1..]);
      SmallMultiple(Word64(bytes[1..]) - ConstValue(c));
    }
  }

  lemma WordBound(bs: Bytes)
    requires |bs| == 8
    ensures Word64(bs) < TWO_64
  {
  }

  lemma Transitive(a: int, b: int, c: int)
    requires Congruent(a, b) && Congruent(b, c)
    ensures Congruent(a, c)
  {
    var p, q := (a - b) / TWO_64, (b - c) / TWO_64;
    assert a - b == TWO_64 * p && b - c == TWO_64 * q;
    Multiple(a - c, p + q);
  }

  lemma ConstantValue(c: MirConst)
    ensures Denotes(c, ConstValue(c))
  {
    hide Wrap;
    if c.CInt? {
      WrapIs(c.i, Wrap(c.i));
    } else if c.CUint? {
      WrapIs(c.u, Wrap(c.u));
    }
  }

  /** A constant evaluates to what it denotes, whatever the locals hold. */
  lemma ConstantRuns(c: MirConst, locals: seq<i64>)
    ensures EvalOperand(Constant(c), locals).Ok? && Denotes(c, EvalOperand(Constant(c), locals).value)
  {
    ConstantValue(c);
  }

  // ----- operators -----

  predicate Truth(r: i64, b: bool) {
    r == if b then 1 else 0
  }

  predicate Quotient(a: i64, b: i64, q: i64, r: i64) {
    a == q * b + r && Abs(r) < Abs(b) && (r == 0 || (r < 0) == (a < 0))
  }

  /** What r has to be for `a op b` to be r. */
  ghost predicate Computes(op: BinOp, a: i64, b: i64, r: i64) {
    match op
    case Add => Congruent(r, a + b)
    case Sub => Congruent(r, a - b)
    case Mul => Congruent(r, a * b)
    case Div => exists rest: i64 :: Quotient(a, b, r, rest)
    case Rem => exists q: i64 :: Quotient(a, b, q, r)
    case Eq => Truth(r, a == b)
    case Ne => Truth(r, a != b)
    case Lt => Truth(r, a < b)
    case Gt => Truth(r, b < a)
    case LtEq => Truth(r, !(b < a))
    case GtEq => Truth(r, !(a < b))
    case And => Truth(r, a != 0 && b != 0)
    case Or => Truth(r, !(a == 0 && b == 0))
    case BitAnd => forall k :: 0 <= k < 64 ==> (Bit(r, k) <==> Bit(a, k) && Bit(b, k))
    case BitOr => forall k :: 0 <= k < 64 ==> (Bit(r, k) <==> Bit(a, k) || Bit(b, k))
    case BitXor => forall k :: 0 <= k < 64 ==> (Bit(r, k) <==> Bit(a, k) != Bit(b, k))
    case Shl => Congruent(r, a * Pow2(b % 64))
    case Shr => r * Pow2(b % 64) <= a < (r + 1) * Pow2(b % 64)
  }

  /** No quotient: the divisor is zero or the only candidate does not fit. */
  predicate Undivided(op: BinOp, a: i64, b: i64) {
    (op.Div? || op.Rem?) && (b == 0 || (a == -0x8000_0000_0000_0000 && b == -1))
  }

  /** Every binary operator computes what it should, and only an undefined division fails. */
  lemma BinaryMeans(op: BinOp, a: i64, b: i64)
    ensures EvalBinary(op, a, b) == Err(ArithmeticTrap) <==> Undivided(op, a, b)
    ensures EvalBinary(op, a, b).Ok? <==> !Undivided(op, a, b)
    ensures EvalBinary(op, a, b).Ok? ==> Computes(op, a, b, EvalBinary(op, a, b).value)
  {
    hide Wrap, Bitwise, Int64.Shl, Int64.Shr, Bit, Pow2;
    match op {
      case Add => WrapIs(a + b, Wrap(a + b));
      case Sub => WrapIs(a - b, Wrap(a - b));
      case Mul => WrapIs(a * b, Wrap(a * b));
      case Div => Divides(a, b);
      case Rem => Divides(a, b);
      case BitAnd => AllBits(a, b);
      case BitOr => AllBits(a, b);
      case BitXor => AllBits(a, b);
      case Shl => Shifts(a, b);
      case Shr => Shifts(a, b);
      case _ =>
    }
  }

  lemma Divides(a: i64, b: i64)
    ensures CheckedDiv(a, b).Some? <==> CheckedRem(a, b).Some?
    ensures CheckedDiv(a, b).None? <==> b == 0 || (a == -0x8000_0000_0000_0000 && b == -1)
    ensures CheckedDiv(a, b).Some? ==> Quotient(a, b, CheckedDiv(a, b).value, CheckedRem(a, b).value)
  {
    DivRemLaw(a, b);
  }

  lemma AllBits(a: i64, b: i64)
    ensures forall k :: 0 <= k < 64 ==> (Bit(Bitwise(AndBits, a, b), k) <==> Bit(a, k) && Bit(b, k))
    ensures forall k :: 0 <= k < 64 ==> (Bit(Bitwise(OrBits, a, b), k) <==> Bit(a, k) || Bit(b, k))
    ensures forall k :: 0 <= k < 64 ==> (Bit(Bitwise(XorBits, a, b), k) <==> Bit(a, k) != Bit(b, k))
  {
    hide Bit, Bitwise;
    forall k | 0 <= k < 64
      ensures Bit(Bitwise(AndBits, a, b), k) <==> Bit(a, k) && Bit(b, k)
      ensures Bit(Bitwise(OrBits, a, b), k) <==> Bit(a, k) || Bit(b, k)
      ensures Bit(Bitwise(XorBits, a, b), k) <==> Bit(a, k) != Bit(b, k)
    {
      BitwiseBits(a, b, k);
    }
  }

  /** Minus is the inverse modulo 2^64; `!` turns truth around on booleans and every bit on integers. */
  lemma UnaryMeans(op: UnOp, onBool: bool, a: i64)
    requires !op.DerefOp?
    ensures op.Neg? ==> Congruent(EvalUnary(op, onBool, a) + a, 0)
    ensures op.Not? && onBool ==> Truth(EvalUnary(op, onBool, a), a == 0)
    ensures op.Not? && !onBool ==> forall k :: 0 <= k < 64 ==> (Bit(EvalUnary(op, onBool, a), k) <==> !Bit(a, k))
  {
    hide Bit, Wrap;
    if op.Neg? {
      WrapIs(0 - a, Wrap(0 - a));
      var q := (Wrap(0 - a) - (0 - a)) / TWO_64;
      Multiple(Wrap(0 - a) + a, q);
    } else if !onBool {
      forall k | 0 <= k < 64
        ensures Bit(-1 - a, k) <==> !Bit(a, k)
      {
        FlippedBits(a, k);
      }
    }
  }

  // ----- branches -----

  predicate FirstHit(arms: seq<Arm>, v: int, k: nat) {
    k < |arms| && arms[k].value == v && forall j :: 0 <= j < k ==> arms[j].value != v
  }

  /** A branch on v leads to the first arm that has it, or else on. */
  ghost predicate LeadsTo(arms: seq<Arm>, otherwise: Block, v: int, b: Block) {
    && (forall k: nat :: FirstHit(arms, v, k) ==> b == arms[k].target)
    && ((forall k :: 0 <= k < |arms| ==> arms[k].value != v) ==> b == otherwise)
  }

  /** Arms hold unsigned values of 128 bits; a boolean is 0 or 1. */
  predicate ArmValue(onBool: bool, d: i64, v: int) {
    if onBool then v == if d == 0 then 0 else 1
    else 0 <= v < 0x1_0000_0000_0000_0000_0000_0000_0000_0000 &&
         (v == d || v == d + 0x1_0000_0000_0000_0000_0000_0000_0000_0000)
  }

  lemma {:induction false} FirstArmLeads(arms: seq<Arm>, otherwise: Block, v: nat)
    ensures LeadsTo(arms, otherwise, v, FirstArm(arms, otherwise, v))
    decreases |arms|
  {
    if arms != [] {
      FirstArmLeads(arms[1..], otherwise, v);
      forall k: nat | FirstHit(arms, v, k)
        ensures FirstArm(arms, otherwise, v) == arms[k].target
      {
        if k > 0 {
          assert forall j :: 0 <= j < k - 1 ==> arms[1..][j] == arms[j + 1];
          assert FirstHit(arms[1..], v, k - 1);
        }
      }
      if forall k :: 0 <= k < |arms| ==> arms[k].value != v {
        assert forall k :: 0 <= k < |arms[1..]| ==> arms[1..][k] == arms[k + 1];
      }
    }
  }

  /** A switch goes where its discriminant, as arms hold values, leads. */
  lemma SwitchMeans(body: Body, t: Terminator, locals: seq<i64>, d: i64, v: int) returns (b: Block)
    requires t.SwitchInt? && ScalarTerminator(t) && EvalOperand(t.discr, locals) == Ok(d) && ArmValue(t.onBool, d, v)
    ensures LeadsTo(t.arms, t.otherwise, v, b)
    ensures ExecTerminator(body, t, locals) == if b < |body.blocks| then At(b, locals) else Failed(NoSuchBlock)
  {
    b := FirstArm(t.arms, t.otherwise, v);
    FirstArmLeads(t.arms, t.otherwise, v);
  }

  /** In particular `true` takes the first arm for 1, `false` the first for 0. */
  lemma TruthBranches(body: Body, t: Terminator, locals: seq<i64>, truth: bool, k: nat)
    requires t.SwitchInt? && ScalarTerminator(t) && t.onBool && t.discr == Constant(CBool(truth))
    requires FirstHit(t.arms, if truth then 1 else 0, k)
    ensures var b := t.arms[k].target;
            ExecTerminator(body, t, locals) == if b < |body.blocks| then At(b, locals) else Failed(NoSuchBlock)
  {
    hide FirstArm;
    ConstantRuns(t.discr.value, locals);
    var b := SwitchMeans(body, t, locals, if truth then 1 else 0, if truth then 1 else 0);
  }

  /** An assert passes exactly when the truth of its condition is the one expected. */
  lemma AssertMeans(body: Body, t: Terminator, locals: seq<i64>, c: i64)
    requires t.Assert? && ScalarTerminator(t) && EvalOperand(t.cond, locals) == Ok(c)
    ensures (c == 0) != t.expected ==>
              ExecTerminator(body, t, locals)
              == if t.target < |body.blocks| then At(t.target, locals) else Failed(NoSuchBlock)
    ensures (c == 0) == t.expected ==> ExecTerminator(body, t, locals) == Failed(AssertFailed)
    ensures t.cond == Constant(CBool(true)) ==> c == 1
    ensures t.cond == Constant(CBool(false)) ==> c == 0
  {
    if t.cond.Constant? {
      ConstantRuns(t.cond.value, locals);
    }
  }
}
