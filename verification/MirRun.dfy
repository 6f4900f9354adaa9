/**
The meaning of scalar MIR: every local holds one 64-bit integer (0 and 1 for booleans).
This is the reference the compiled bytecode is compared with; it follows the MIR interpreter
(crates/glyim-mir-interp/src/lib.rs) on operand order, switch order and failure.
*/
module MirRun {
  import opened Int64
  import opened Mir
  import opened Wrappers

  datatype MirError =
    | BadLocal(index: Local)
    | ArithmeticTrap
    | AssertFailed
    | ReachedUnreachable
    | NoSuchBlock

  datatype Outcome = At(block: nat, locals: seq<i64>) | Returned(value: i64) | Failed(error: MirError)

  // ----- the scalar fragment -----

  predicate ScalarPlace(p: Place) {
    p.projection == []
  }

  predicate ScalarOperand(o: Operand) {
    o.Constant? || ScalarPlace(o.place)
  }

  predicate IsBoolOperand(body: Body, o: Operand) {
    match o
    case Copy(p) => p.local < |body.locals| && body.locals[p.local].TBool?
    case Move(p) => p.local < |body.locals| && body.locals[p.local].TBool?
    case Constant(c) => c.CBool?
  }

  predicate ScalarRvalue(r: Rvalue) {
    match r
    case Use(o) => ScalarOperand(o)
    case BinaryOp(_, l, r) => ScalarOperand(l) && ScalarOperand(r)
    case UnaryOp(op, o) => !op.DerefOp? && ScalarOperand(o)
    case _ => false
  }

  predicate ScalarStatement(s: Statement) {
    s.Assign? ==> ScalarPlace(s.dest) && ScalarRvalue(s.rvalue)
  }

  predicate ScalarTerminator(t: Terminator) {
    match t
    case SwitchInt(o, _, arms, _) => ScalarOperand(o) && |arms| <= U32_MAX
    case Call(_, _, _, _, _) => false
    case Assert(o, _, _, _) => ScalarOperand(o)
    case Drop(p, _, _) => ScalarPlace(p)
    case _ => true
  }

  predicate ScalarBlock(bb: BasicBlock) {
    (forall s <- bb.statements :: ScalarStatement(s)) && ScalarTerminator(bb.terminator)
  }

  predicate ScalarBody(body: Body) {
    forall bb <- body.blocks :: ScalarBlock(bb)
  }

  // ----- evaluation -----

  function ConstValue(c: MirConst): i64 {
    match c
    case CInt(v) => Wrap(v)
    case CUint(v) => Wrap(v)
    case CBool(b) => Bool(b)
    case CChar(c) => c
    case CUnit => 0
    case CUnresolved => 0
  }

  function EvalOperand(o: Operand, locals: seq<i64>): Result<i64, MirError>
    requires ScalarOperand(o)
  {
    match o
    case Constant(c) => Ok(ConstValue(c))
    case _ => if o.place.local < |locals| then Ok(locals[o.place.local]) else Err(BadLocal(o.place.local))
  }

  function EvalBinary(op: BinOp, a: i64, b: i64): Result<i64, MirError> {
    match op
    case Add => Ok(Wrap(a + b))
    case Sub => Ok(Wrap(a - b))
    case Mul => Ok(Wrap(a * b))
    case Div => (match CheckedDiv(a, b) case Some(q) => Ok(q) case None => Err(ArithmeticTrap))
    case Rem => (match CheckedRem(a, b) case Some(r) => Ok(r) case None => Err(ArithmeticTrap))
    case Eq => Ok(Bool(a == b))
    case Ne => Ok(Bool(a != b))
    case Lt => Ok(Bool(a < b))
    case Gt => Ok(Bool(a > b))
    case LtEq => Ok(Bool(a <= b))
    case GtEq => Ok(Bool(a >= b))
    case And => Ok(Bool(a != 0 && b != 0))
    case Or => Ok(Bool(a != 0 || b != 0))
    case BitAnd => Ok(Bitwise(AndBits, a, b))
    case BitOr => Ok(Bitwise(OrBits, a, b))
    case BitXor => Ok(Bitwise(XorBits, a, b))
    case Shl => Ok(Int64.Shl(a, b))
    case Shr => Ok(Int64.Shr(a, b))
  }

  /** `!` is logical on a boolean and flips every bit of an integer. */
  function EvalUnary(op: UnOp, onBool: bool, a: i64): i64
    requires !op.DerefOp?
  {
    match op
    case Neg => Wrap(0 - a)
    case Not => if onBool then Bool(a == 0) else -1 - a
  }

  function EvalRvalue(body: Body, r: Rvalue, locals: seq<i64>): Result<i64, MirError>
    requires ScalarRvalue(r)
  {
    match r
    case Use(o) => EvalOperand(o, locals)
    case BinaryOp(op, lo, ro) =>
      (match EvalOperand(lo, locals)
       case Err(e) => Err(e)
       case Ok(a) =>
         match EvalOperand(ro, locals)
         case Err(e) => Err(e)
         case Ok(b) => EvalBinary(op, a, b))
    case UnaryOp(op, o) =>
      (match EvalOperand(o, locals)
       case Err(e) => Err(e)
       case Ok(a) => Ok(EvalUnary(op, IsBoolOperand(body, o), a)))
  }

  function ExecStatement(body: Body, s: Statement, locals: seq<i64>): Result<seq<i64>, MirError>
    requires ScalarStatement(s)
  {
    match s
    case Assign(p, r) =>
      (match EvalRvalue(body, r, locals)
       case Err(e) => Err(e)
       case Ok(v) => if p.local < |locals| then Ok(locals[p.local := v]) else Err(BadLocal(p.local)))
    case _ => Ok(locals)
  }

  function ExecStatements(body: Body, ss: seq<Statement>, locals: seq<i64>): Result<seq<i64>, MirError>
    requires forall s <- ss :: ScalarStatement(s)
  {
    if ss == [] then Ok(locals)
    else
      match ExecStatement(body, ss[0], locals)
      case Err(e) => Err(e)
      case Ok(l) => ExecStatements(body, ss[1..], l)
  }

  const TWO_128: int := 0x1_0000_0000_0000_0000_0000_0000_0000_0000

  /** `discr as u128` for a signed value. */
  function SignExtend(d: i64): nat {
    if d < 0 then d + TWO_128 else d
  }

  /** The target of the first arm whose value is v. */
  function FirstArm(arms: seq<Arm>, otherwise: Block, v: nat): Block {
    if arms == [] then otherwise
    else if arms[0].value == v then arms[0].target
    else FirstArm(arms[1..], otherwise, v)
  }

  function SwitchTarget(onBool: bool, arms: seq<Arm>, otherwise: Block, d: i64): Block {
    FirstArm(arms, otherwise, if onBool then Bool(d != 0) else SignExtend(d))
  }

  function ReturnsUnit(body: Body): bool {
    body.locals == [] || body.locals[0].TUnit?
  }

  function GoTo(body: Body, b: Block, locals: seq<i64>): Outcome {
    if b < |body.blocks| then At(b, locals) else Failed(NoSuchBlock)
  }

  function ExecTerminator(body: Body, t: Terminator, locals: seq<i64>): Outcome
    requires ScalarTerminator(t)
  {
    match t
    case Goto(b) => GoTo(body, b, locals)
    case SwitchInt(o, onBool, arms, otherwise) =>
      (match EvalOperand(o, locals)
       case Err(e) => Failed(e)
       case Ok(d) => GoTo(body, SwitchTarget(onBool, arms, otherwise, d), locals))
    case Return =>
      if ReturnsUnit(body) then Returned(0)
      else if locals == [] then Failed(BadLocal(0))
      else Returned(locals[0])
    case Unreachable => Failed(ReachedUnreachable)
    case Assert(o, expected, b, _) =>
      (match EvalOperand(o, locals)
       case Err(e) => Failed(e)
       case Ok(c) => if (c != 0) == expected then GoTo(body, b, locals) else Failed(AssertFailed))
    case Drop(_, b, _) => GoTo(body, b, locals)
  }

  function ExecBlock(body: Body, b: nat, locals: seq<i64>): Outcome
    requires ScalarBody(body) && b < |body.blocks|
  {
    var bb := body.blocks[b];
    assert bb in body.blocks;
    match ExecStatements(body, bb.statements, locals)
    case Err(e) => Failed(e)
    case Ok(l) => ExecTerminator(body, bb.terminator, l)
  }

  predicate Valid(body: Body, o: Outcome) {
    o.At? ==> o.block < |body.blocks|
  }

  /** The outcome after at most n blocks. */
  function Run(body: Body, o: Outcome, n: nat): (r: Outcome)
    requires ScalarBody(body) && Valid(body, o)
    ensures Valid(body, r)
    decreases n
  {
    if n == 0 || !o.At? then o else Run(body, ExecBlock(body, o.block, o.locals), n - 1)
  }
}
