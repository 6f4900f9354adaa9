/** The bytes the backend emits for scalar MIR (crates/glyim-codegen/src/lib.rs). */
module CodegenSpec {
  import opened Int64
  import opened Wire
  import opened Mir
  import MirRun
  import VmSpec

  const OP_LOAD_CONST: u8 := 0x01
  const OP_ADD: u8 := 0x02
  const OP_SUB: u8 := 0x03
  const OP_MUL: u8 := 0x04
  const OP_DIV: u8 := 0x05
  const OP_REM: u8 := 0x06
  const OP_EQ: u8 := 0x07
  const OP_NE: u8 := 0x08
  const OP_LT: u8 := 0x09
  const OP_GT: u8 := 0x0A
  const OP_LE: u8 := 0x0B
  const OP_GE: u8 := 0x0C
  const OP_AND: u8 := 0x0D
  const OP_OR: u8 := 0x0E
  const OP_NOT: u8 := 0x0F
  const OP_NEG: u8 := 0x10
  const OP_BITAND: u8 := 0x11
  const OP_BITOR: u8 := 0x12
  const OP_BITXOR: u8 := 0x13
  const OP_SHL: u8 := 0x14
  const OP_SHR: u8 := 0x15
  const OP_LOAD_LOCAL: u8 := 0x16
  const OP_STORE_LOCAL: u8 := 0x17
  const OP_RETURN: u8 := 0x18
  const OP_JUMP_IF: u8 := 0x19
  const OP_JUMP: u8 := 0x1A
  const OP_CALL: u8 := 0x1B
  const OP_CAST: u8 := 0x1C
  const OP_AGGREGATE: u8 := 0x1D
  const OP_DISCRIMINANT: u8 := 0x1E
  const OP_LEN: u8 := 0x1F
  const OP_SWITCH_INT: u8 := 0x20
  const OP_ASSERT: u8 := 0x21
  const OP_CALL_INDIRECT: u8 := 0x22
  const OP_LOAD_LOCAL_ADDR: u8 := 0x29
  const OP_STORE_FIELD: u8 := 0x2A
  const OP_DEREF: u8 := 0x2B
  const OP_DROP: u8 := 0x2C
  const OP_TRAP: u8 := 0xFF

  // ----- constants that must be folded before code generation -----

  predicate FoldedOperand(o: Operand) {
    o.Constant? ==> !o.value.CUnresolved?
  }

  predicate FoldedRvalue(r: Rvalue) {
    match r
    case Use(o) => FoldedOperand(o)
    case BinaryOp(_, a, b) => FoldedOperand(a) && FoldedOperand(b)
    case UnaryOp(_, o) => FoldedOperand(o)
    case _ => true
  }

  predicate FoldedStatement(s: Statement) {
    s.Assign? ==> FoldedRvalue(s.rvalue)
  }

  predicate FoldedTerminator(t: Terminator) {
    match t
    case SwitchInt(o, _, _, _) => FoldedOperand(o)
    case Assert(o, _, _, _) => FoldedOperand(o)
    case _ => true
  }

  predicate FoldedBlock(bb: BasicBlock) {
    (forall s <- bb.statements :: FoldedStatement(s)) && FoldedTerminator(bb.terminator)
  }

  predicate FoldedBody(body: Body) {
    forall bb <- body.blocks :: FoldedBlock(bb)
  }

  // ----- emitted bytes -----

  function BinOpcode(op: BinOp): u8 {
    match op
    case Add => OP_ADD
    case Sub => OP_SUB
    case Mul => OP_MUL
    case Div => OP_DIV
    case Rem => OP_REM
    case Eq => OP_EQ
    case Ne => OP_NE
    case Lt => OP_LT
    case Gt => OP_GT
    case LtEq => OP_LE
    case GtEq => OP_GE
    case And => OP_AND
    case Or => OP_OR
    case BitAnd => OP_BITAND
    case BitOr => OP_BITOR
    case BitXor => OP_BITXOR
    case Shl => OP_SHL
    case Shr => OP_SHR
  }

  function LoadLocalBytes(i: Local): Bytes {
    [OP_LOAD_LOCAL] + U32Le(i)
  }

  function OperandBytes(o: Operand): Bytes {
    match o
    case Constant(c) => [OP_LOAD_CONST] + I64Le(MirRun.ConstValue(c))
    case _ => LoadLocalBytes(o.place.local)
  }

  function RvalueBytes(r: Rvalue): Bytes
    requires MirRun.ScalarRvalue(r)
  {
    match r
    case Use(o) => OperandBytes(o)
    case BinaryOp(op, a, b) => OperandBytes(a) + OperandBytes(b) + [BinOpcode(op)]
    case UnaryOp(op, o) => OperandBytes(o) + [if op.Not? then OP_NOT else OP_NEG]
  }

  function StatementBytes(s: Statement): Bytes
    requires MirRun.ScalarStatement(s)
  {
    if s.Assign? then RvalueBytes(s.rvalue) + ([OP_STORE_LOCAL] + U32Le(s.dest.local)) else []
  }

  function StatementsBytes(ss: seq<Statement>): Bytes
    requires forall s <- ss :: MirRun.ScalarStatement(s)
  {
    if ss == [] then [] else StatementBytes(ss[0]) + StatementsBytes(ss[1..])
  }

  function JumpBytes(b: Block): Bytes {
    [OP_JUMP] + U32Le(b)
  }

  /** Twelve bytes an arm: the value cut to 64 bits, then the target block. */
  function ArmsBytes(arms: seq<Arm>): Bytes {
    if arms == [] then [] else I64Le(Wrap(arms[0].value)) + U32Le(arms[0].target) + ArmsBytes(arms[1..])
  }

  function TerminatorBytes(body: Body, t: Terminator): Bytes
    requires MirRun.ScalarTerminator(t)
  {
    match t
    case Goto(b) => JumpBytes(b)
    case SwitchInt(o, onBool, arms, otherwise) =>
      if onBool then
        OperandBytes(o) + ([OP_JUMP_IF] + U32Le(MirRun.FirstArm(arms, otherwise, 1)) + JumpBytes(otherwise))
      else
        OperandBytes(o) + ([OP_SWITCH_INT] + U32Le(|arms|) + ArmsBytes(arms) + U32Le(otherwise))
    case Return => if MirRun.ReturnsUnit(body) then [OP_RETURN] else LoadLocalBytes(0) + [OP_RETURN]
    case Unreachable => [OP_TRAP]
    case Assert(o, expected, b, _) => OperandBytes(o) + ([OP_ASSERT, if expected then 1 else 0] + U32Le(b))
    case Drop(p, b, _) => [OP_LOAD_LOCAL_ADDR] + U32Le(p.local) + ([OP_DROP] + JumpBytes(b))
  }

  function BlockBytes(body: Body, bb: BasicBlock): Bytes
    requires MirRun.ScalarBlock(bb)
  {
    StatementsBytes(bb.statements) + TerminatorBytes(body, bb.terminator)
  }

  /** The code of the first n blocks. */
  function CodeOf(body: Body, n: nat): Bytes
    requires MirRun.ScalarBody(body) && n <= |body.blocks|
  {
    if n == 0 then []
    else
      assert body.blocks[n - 1] in body.blocks;
      CodeOf(body, n - 1) + BlockBytes(body, body.blocks[n - 1])
  }

  function OffsetsOf(body: Body, n: nat): (offsets: seq<nat>)
    requires MirRun.ScalarBody(body) && n <= |body.blocks|
  {
    seq(n, i requires 0 <= i < n => |CodeOf(body, i)|)
  }

  /** The function a caller builds from the emitted code and its block table. */
  function Compile(body: Body): VmSpec.Function
    requires MirRun.ScalarBody(body)
  {
    VmSpec.Function(CodeOf(body, |body.blocks|), |body.locals|, 0, OffsetsOf(body, |body.blocks|))
  }

  // ----- which emitted constants are integers, in emission order -----

  function OperandFlags(o: Operand): seq<bool> {
    if o.Constant? then [true] else []
  }

  function RvalueFlags(r: Rvalue): seq<bool>
    requires MirRun.ScalarRvalue(r)
  {
    match r
    case Use(o) => OperandFlags(o)
    case BinaryOp(_, a, b) => OperandFlags(a) + OperandFlags(b)
    case UnaryOp(_, o) => OperandFlags(o)
  }

  function StatementFlags(s: Statement): seq<bool>
    requires MirRun.ScalarStatement(s)
  {
    if s.Assign? then RvalueFlags(s.rvalue) else []
  }

  function StatementsFlags(ss: seq<Statement>): seq<bool>
    requires forall s <- ss :: MirRun.ScalarStatement(s)
  {
    if ss == [] then [] else StatementFlags(ss[0]) + StatementsFlags(ss[1..])
  }

  function TerminatorFlags(t: Terminator): seq<bool> {
    match t
    case SwitchInt(o, _, _, _) => OperandFlags(o)
    case Assert(o, _, _, _) => OperandFlags(o)
    case _ => []
  }

  function FlagsOf(body: Body, n: nat): seq<bool>
    requires MirRun.ScalarBody(body) && n <= |body.blocks|
  {
    if n == 0 then []
    else
      assert body.blocks[n - 1] in body.blocks;
      FlagsOf(body, n - 1)
      + (StatementsFlags(body.blocks[n - 1].statements) + TerminatorFlags(body.blocks[n - 1].terminator))
  }
}
