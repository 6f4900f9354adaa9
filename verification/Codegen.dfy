/** The bytecode backend: it appends bytes to a buffer and records which constants are integers. */
module Codegen {
  import opened Int64
  import opened Wire
  import opened Wrappers
  import opened Mir
  import opened MirRun
  import opened CodegenSpec
  import Peephole

  datatype EmitError = UnfoldedConstant | CompilerPanic

  datatype OptLevel = O0 | O1 | O2 | O3

  class Backend {
    const level: OptLevel
    var bc: Bytes
    var constIsInt: seq<bool>

    constructor (level: OptLevel)
      ensures this.level == level
    {
      this.level := level;
      bc, constIsInt := [], [];
    }

    /** On success the buffer and the flags have grown by exactly these. */
    twostate predicate Appended(bytes: Bytes, flags: seq<bool>)
      reads this
    {
      bc == old(bc) + bytes && constIsInt == old(constIsInt) + flags
    }

    method EmitOperand(o: Operand) returns (r: Result<(), EmitError>)
      requires ScalarOperand(o)
      modifies this`bc, this`constIsInt
      ensures r.Ok? <==> FoldedOperand(o)
      ensures r.Ok? ==> Appended(OperandBytes(o), OperandFlags(o))
    {
      match o {
        case Copy(_) | Move(_) =>
          bc := bc + [OP_LOAD_LOCAL] + U32Le(o.place.local);
        case Constant(c) =>
          if c.CUnresolved? {
            return Err(UnfoldedConstant);
          }
          bc := bc + [OP_LOAD_CONST] + I64Le(ConstValue(c));
          constIsInt := constIsInt + [true];
      }
      r := Ok(());
    }

    method EmitRvalue(v: Rvalue) returns (r: Result<(), EmitError>)
      requires ScalarRvalue(v)
      modifies this`bc, this`constIsInt
      ensures r.Ok? <==> FoldedRvalue(v)
      ensures r.Ok? ==> Appended(RvalueBytes(v), RvalueFlags(v))
    {
      hide OperandBytes, BinOpcode;
      match v {
        case Use(o) =>
          r := EmitOperand(o);
        case BinaryOp(op, a, b) =>
          r := EmitOperand(a);
          if r.Err? { return; }
          r := EmitOperand(b);
          if r.Err? { return; }
          bc := bc + [BinOpcode(op)];
        case UnaryOp(op, o) =>
          r := EmitOperand(o);
          if r.Err? { return; }
          bc := bc + [if op.Not? then OP_NOT else OP_NEG];
      }
    }

    method EmitStatement(s: Statement) returns (r: Result<(), EmitError>)
      requires ScalarStatement(s)
      modifies this`bc, this`constIsInt
      ensures r.Ok? <==> FoldedStatement(s)
      ensures r.Ok? ==> Appended(StatementBytes(s), StatementFlags(s))
    {
      hide RvalueBytes, RvalueFlags, FoldedRvalue;
      match s {
        case Assign(p, v) =>
          r := EmitRvalue(v);
          if r.Err? { return; }
          bc := bc + [OP_STORE_LOCAL] + U32Le(p.local);
        case StorageLive(_) | StorageDead(_) | Nop =>
          r := Ok(());
      }
    }

    method EmitArms(arms: seq<Arm>)
      modifies this`bc
      ensures bc == old(bc) + ArmsBytes(arms)
    {
      hide I64Le, U32Le;
      for k := 0 to |arms|
        invariant old(bc) + ArmsBytes(arms) == bc + ArmsBytes(arms[k..])
      {
        assert arms[k..][0] == arms[k] && arms[k..][1..] == arms[k + 1..];
        bc := bc + I64Le(Wrap(arms[k].value)) + U32Le(arms[k].target);
      }
    }

    method EmitTerminator(body: Body, t: Terminator) returns (r: Result<(), EmitError>)
      requires ScalarTerminator(t)
      modifies this`bc, this`constIsInt
      ensures r.Ok? <==> FoldedTerminator(t)
      ensures r.Ok? ==> Appended(TerminatorBytes(body, t), TerminatorFlags(t))
    {
      hide OperandBytes, ArmsBytes, FirstArm, U32Le, ReturnsUnit;
      match t {
        case Assert(_, _, _, _) =>
          r := EmitAssert(t.cond, t.expected, t.target);
        case SwitchInt(_, _, _, _) =>
          r := EmitSwitch(t.discr, t.onBool, t.arms, t.otherwise);
        case Goto(_) | Return | Unreachable | Drop(_, _, _) =>
          EmitPlain(body, t);
          r := Ok(());
      }
    }

    /** Terminators that evaluate no operand. */
    method EmitPlain(body: Body, t: Terminator)
      requires ScalarTerminator(t) && !t.Assert? && !t.SwitchInt?
      modifies this`bc
      ensures bc == old(bc) + TerminatorBytes(body, t)
    {
      hide U32Le, ReturnsUnit;
      match t {
        case Goto(b) =>
          bc := bc + [OP_JUMP] + U32Le(b);
        case Return =>
          if !ReturnsUnit(body) {
            bc := bc + [OP_LOAD_LOCAL] + U32Le(0);
          }
          bc := bc + [OP_RETURN];
        case Unreachable =>
          bc := bc + [OP_TRAP];
        case Drop(p, b, _) =>
          bc := bc + [OP_LOAD_LOCAL_ADDR] + U32Le(p.local);
          bc := bc + [OP_DROP] + [OP_JUMP] + U32Le(b);
      }
    }

    method EmitAssert(cond: Operand, expected: bool, b: Block) returns (r: Result<(), EmitError>)
      requires ScalarOperand(cond)
      modifies this`bc, this`constIsInt
      ensures r.Ok? <==> FoldedOperand(cond)
      ensures r.Ok? ==>
              Appended(OperandBytes(cond) + ([OP_ASSERT, if expected then 1 else 0] + U32Le(b)), OperandFlags(cond))
    {
      hide OperandBytes, U32Le;
      r := EmitOperand(cond);
      if r.Err? { return; }
      bc := bc + [OP_ASSERT, if expected then 1 else 0] + U32Le(b);
    }

    method EmitSwitch(discr: Operand, onBool: bool, arms: seq<Arm>, otherwise: Block) returns (r: Result<(), EmitError>)
      requires ScalarOperand(discr) && |arms| <= U32_MAX
      modifies this`bc, this`constIsInt
      ensures r.Ok? <==> FoldedOperand(discr)
      ensures r.Ok? ==> Appended(
                if onBool then
                  OperandBytes(discr) + ([OP_JUMP_IF] + U32Le(FirstArm(arms, otherwise, 1)) + JumpBytes(otherwise))
                else
                  OperandBytes(discr) + ([OP_SWITCH_INT] + U32Le(|arms|) + ArmsBytes(arms) + U32Le(otherwise)),
                OperandFlags(discr))
    {
      hide OperandBytes, FirstArm, ArmsBytes, U32Le;
      r := EmitOperand(discr);
      if r.Err? { return; }
      if onBool {
        bc := bc + [OP_JUMP_IF] + U32Le(FirstArm(arms, otherwise, 1));
        bc := bc + [OP_JUMP] + U32Le(otherwise);
      } else {
        bc := bc + [OP_SWITCH_INT] + U32Le(|arms|);
        EmitArms(arms);
        bc := bc + U32Le(otherwise);
      }
    }

    method EmitStatements(ss: seq<Statement>) returns (r: Result<(), EmitError>)
      requires forall s <- ss :: ScalarStatement(s)
      modifies this`bc, this`constIsInt
      ensures r.Ok? <==> (forall s <- ss :: FoldedStatement(s))
      ensures r.Ok? ==> Appended(StatementsBytes(ss), StatementsFlags(ss))
    {
      hide StatementBytes, StatementFlags, FoldedStatement;
      r := Ok(());
      for k := 0 to |ss|
        invariant r.Ok? && forall i :: 0 <= i < k ==> FoldedStatement(ss[i])
        invariant old(bc) + StatementsBytes(ss) == bc + StatementsBytes(ss[k..])
        invariant old(constIsInt) + StatementsFlags(ss) == constIsInt + StatementsFlags(ss[k..])
      {
        assert ss[k] in ss;
        assert ss[k..][0] == ss[k] && ss[k..][1..] == ss[k + 1..];
        r := EmitStatement(ss[k]);
        if r.Err? { return; }
      }
      assert ss[|ss|..] == [];
    }

    method EmitBlock(body: Body, bb: BasicBlock) returns (r: Result<(), EmitError>)
      requires ScalarBlock(bb)
      modifies this`bc, this`constIsInt
      ensures r.Ok? <==> FoldedBlock(bb)
      ensures r.Ok? ==> Appended(BlockBytes(body, bb), StatementsFlags(bb.statements) + TerminatorFlags(bb.terminator))
    {
      hide StatementsBytes, StatementsFlags, TerminatorBytes, TerminatorFlags, FoldedStatement, FoldedTerminator,
           ScalarStatement, ScalarTerminator;
      r := EmitStatements(bb.statements);
      if r.Err? { return; }
      r := EmitTerminator(body, bb.terminator);
    }

    /** The code of a body and the byte offset of each of its blocks, optimised above O0. */
    method GenerateFunctionWithBlocks(body: Body) returns (r: Result<(Bytes, seq<nat>), EmitError>)
      requires ScalarBody(body)
      modifies this`bc, this`constIsInt
      ensures !FoldedBody(body) ==> r == Err(UnfoldedConstant)
      ensures FoldedBody(body) && level.O0? ==>
                r == Ok((CodeOf(body, |body.blocks|), OffsetsOf(body, |body.blocks|)))
      ensures FoldedBody(body) && !level.O0? ==>
                match Peephole.OptimizeBytes(CodeOf(body, |body.blocks|), FlagsOf(body, |body.blocks|))
                case None => r == Err(CompilerPanic)
                case Some(code) => r == Ok((code, OffsetsOf(body, |body.blocks|)))
    {
      hide BlockBytes, FoldedBlock, ScalarBlock, StatementsFlags, TerminatorFlags, Peephole.OptimizeBytes,
           StatementsBytes;
      bc, constIsInt := [], [];
      var offsets: seq<nat> := [];
      for b := 0 to |body.blocks|
        invariant bc == CodeOf(body, b) && offsets == OffsetsOf(body, b) && constIsInt == FlagsOf(body, b)
        invariant forall k :: 0 <= k < b ==> FoldedBlock(body.blocks[k])
      {
        offsets := offsets + [|bc|];
        assert body.blocks[b] in body.blocks;
        var emitted := EmitBlock(body, body.blocks[b]);
        if emitted.Err? {
          return Err(UnfoldedConstant);
        }
      }
      if level.O0? {
        return Ok((bc, offsets));
      }
      var optimized := Peephole.RunPeephole(bc, constIsInt);
      if optimized.None? {
        return Err(CompilerPanic);
      }
      bc := optimized.value;
      r := Ok((bc, offsets));
    }
  }
}
