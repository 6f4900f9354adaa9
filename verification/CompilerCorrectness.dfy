/**
Compiled scalar MIR and the MIR it came from behave alike on the machine: block by block, over
whole runs, in results, in traps and in non-termination.
*/
module CompilerCorrectness {
  import opened Int64
  import opened Wire
  import opened Wrappers
  import opened Mir
  import opened MirRun
  import opened CodegenSpec
  import V = VmSpec

  // ----- what the emitter gets right: the exact conditions on switches and negations -----

  /** The target the machine takes: the last arm whose value, cut to 64 bits, is d. */
  function LastArm(arms: seq<Arm>, otherwise: Block, d: i64): Block {
    if arms == [] then otherwise
    else LastArm(arms[1..], if Wrap(arms[0].value) == d then arms[0].target else otherwise, d)
  }

  function MachineTarget(onBool: bool, arms: seq<Arm>, otherwise: Block, d: i64): Block {
    if onBool then if d != 0 then FirstArm(arms, otherwise, 1) else otherwise
    else LastArm(arms, otherwise, d)
  }

  /** Checkable arm by arm: no arm is shadowed or aliased to another block once cut to 64 bits. */
  predicate FaithfulArms(onBool: bool, arms: seq<Arm>, otherwise: Block) {
    if onBool then FirstArm(arms, otherwise, 0) == otherwise
    else
      forall i :: 0 <= i < |arms| ==>
        LastArm(arms, otherwise, Wrap(arms[i].value)) == FirstArm(arms, otherwise, SignExtend(Wrap(arms[i].value)))
  }

  lemma {:induction false} LastArmMiss(arms: seq<Arm>, otherwise: Block, d: i64)
    requires forall i :: 0 <= i < |arms| ==> Wrap(arms[i].value) != d
    ensures LastArm(arms, otherwise, d) == otherwise
  {
    if arms != [] {
      LastArmMiss(arms[1..], otherwise, d);
    }
  }

  lemma {:induction false} FirstArmMiss(arms: seq<Arm>, otherwise: Block, v: nat)
    requires forall i :: 0 <= i < |arms| ==> arms[i].value != v
    ensures FirstArm(arms, otherwise, v) == otherwise
  {
    if arms != [] {
      FirstArmMiss(arms[1..], otherwise, v);
    }
  }

  lemma WrapSignExtend(d: i64)
    ensures Wrap(SignExtend(d)) == d
  {
    assert TWO_128 == TWO_64 * TWO_64;
  }

  /** The machine takes the MIR's branch for every discriminant iff the arms are faithful. */
  lemma SwitchExact(onBool: bool, arms: seq<Arm>, otherwise: Block)
    ensures FaithfulArms(onBool, arms, otherwise) <==>
            (forall d: i64 :: MachineTarget(onBool, arms, otherwise, d) == SwitchTarget(onBool, arms, otherwise, d))
  {
    if FaithfulArms(onBool, arms, otherwise) {
      forall d: i64
        ensures MachineTarget(onBool, arms, otherwise, d) == SwitchTarget(onBool, arms, otherwise, d)
      {
        if !onBool {
          WrapSignExtend(d);
          if i :| 0 <= i < |arms| && Wrap(arms[i].value) == d {
          } else {
            LastArmMiss(arms, otherwise, d);
            FirstArmMiss(arms, otherwise, SignExtend(d));
          }
        }
      }
    } else if onBool {
      assert MachineTarget(onBool, arms, otherwise, 0) != SwitchTarget(onBool, arms, otherwise, 0);
    } else {
      var i :| 0 <= i < |arms|
            && LastArm(arms, otherwise, Wrap(arms[i].value))
               != FirstArm(arms, otherwise, SignExtend(Wrap(arms[i].value)));
      var d := Wrap(arms[i].value);
      assert MachineTarget(onBool, arms, otherwise, d) != SwitchTarget(onBool, arms, otherwise, d);
    }
  }

  /** Arms that are sign-extended 64-bit values, all different: what lowering produces. */
  lemma {:induction false} DistinctArmsFaithful(arms: seq<Arm>, otherwise: Block)
    requires forall i :: 0 <= i < |arms| ==> arms[i].value == SignExtend(Wrap(arms[i].value))
    requires forall i, j :: 0 <= i < j < |arms| ==> Wrap(arms[i].value) != Wrap(arms[j].value)
    ensures FaithfulArms(false, arms, otherwise)
  {
    forall i | 0 <= i < |arms|
      ensures LastArm(arms, otherwise, Wrap(arms[i].value)) ==
              FirstArm(arms, otherwise, SignExtend(Wrap(arms[i].value)))
    {
      FirstArmHit(arms, otherwise, i);
      LastArmHit(arms, otherwise, i);
    }
  }

  lemma {:induction false} FirstArmHit(arms: seq<Arm>, otherwise: Block, i: nat)
    requires i < |arms| && forall j :: 0 <= j < i ==> arms[j].value != arms[i].value
    ensures FirstArm(arms, otherwise, arms[i].value) == arms[i].target
  {
    if i > 0 {
      FirstArmHit(arms[1..], otherwise, i - 1);
    }
  }

  lemma {:induction false} LastArmHit(arms: seq<Arm>, otherwise: Block, i: nat)
    requires i < |arms| && forall j :: i < j < |arms| ==> Wrap(arms[j].value) != Wrap(arms[i].value)
    ensures LastArm(arms, otherwise, Wrap(arms[i].value)) == arms[i].target
  {
    if i == 0 {
      LastArmMiss(arms[1..], arms[0].target, Wrap(arms[0].value));
    } else {
      LastArmHit(arms[1..], if Wrap(arms[0].value) == Wrap(arms[i].value) then arms[0].target else otherwise, i - 1);
    }
  }

  /** OP_NOT is logical, so on an integer operand it agrees with `!` only at -1. */
  lemma IntegerNotExact(a: i64)
    ensures EvalUnary(Not, false, a) == V.Unop(V.Not, a) <==> a == -1
    ensures EvalUnary(Not, true, a) == V.Unop(V.Not, a)
  {
  }

  predicate FaithfulStatement(body: Body, s: Statement) {
    s.Assign? && s.rvalue.UnaryOp? && s.rvalue.unop.Not? ==> IsBoolOperand(body, s.rvalue.operand)
  }

  predicate FaithfulBlock(body: Body, bb: BasicBlock) {
    && (forall s <- bb.statements :: FaithfulStatement(body, s))
    && (bb.terminator.SwitchInt? ==> FaithfulArms(bb.terminator.onBool, bb.terminator.arms, bb.terminator.otherwise))
  }

  /** A scalar body without unfolded constants, integer `!` or unfaithful switches, that fits in memory. */
  predicate Compilable(body: Body) {
    && ScalarBody(body)
    && FoldedBody(body)
    && (forall bb <- body.blocks :: FaithfulBlock(body, bb))
    && |CodeOf(body, |body.blocks|)| <= ISIZE_MAX
  }

  // ----- the simulation relation -----

  function Ints(locals: seq<i64>): (r: seq<V.Value>)
    ensures |r| == |locals|
  {
    seq(|locals|, i requires 0 <= i < |locals| => V.Int(locals[i]))
  }

  /** The frame fr, resumed at pc with the given integer locals and some memory. */
  predicate Resumes(fr: V.Frame, fr': V.Frame, pc: nat, locals: seq<i64>) {
    fr' == fr.(locals := Ints(locals), mem := fr'.mem, pc := pc)
  }

  /** The machine state with `below` under a frame like fr, at pc, with the given operands. */
  ghost predicate Here(s: V.State, below: seq<V.Frame>, fr: V.Frame, pc: nat, locals: seq<i64>, stack: seq<V.Value>) {
    && s.frames != []
    && s == V.State(stack, below + [V.Top(s)])
    && Resumes(fr, V.Top(s), pc, locals)
  }

  /** Replacing the top frame of a state built on `below`. */
  lemma TopLaws(below: seq<V.Frame>)
    ensures forall f, stack {:trigger V.State(stack, below + [f])} ::
              V.State(stack, below + [f]).frames != [] && V.Top(V.State(stack, below + [f])) == f
    ensures forall f, g, stack {:trigger V.WithTop(V.State(stack, below + [f]), g)} ::
              V.State(stack, below + [f]).frames != [] ==>
              V.WithTop(V.State(stack, below + [f]), g) == V.State(stack, below + [g])
  {
    forall f, g, stack | V.State(stack, below + [f]).frames != []
      ensures V.WithTop(V.State(stack, below + [f]), g) == V.State(stack, below + [g])
    {
      assert (below + [f])[|below| := g] == below + [g];
    }
  }

  /** Popping the operand just pushed. */
  lemma StackLaws(stack: seq<V.Value>, v: V.Value, frames: seq<V.Frame>)
    ensures var s := V.State(stack + [v], frames);
            s.stack != [] && V.Peek(s, 0) == v && V.Pop(s, 1) == V.State(stack, frames)
  {
    assert (stack + [v])[..|stack|] == stack;
  }

  /** Popping the only operand of a state built on `below`. */
  lemma Popped(s: V.State, below: seq<V.Frame>, v: V.Value)
    requires s.frames != [] && s == V.State([v], below + [V.Top(s)])
    ensures V.Peek(s, 0) == v
    ensures forall f {:trigger below + [f]} :: V.Pop(V.State([v], below + [f]), 1) == V.State([], below + [f])
    ensures forall f {:trigger V.WithTop(s, f)} :: V.Pop(V.WithTop(s, f), 1) == V.State([], below + [f])
    ensures V.Pop(s, 1) == V.State([], s.frames)
  {
    TopLaws(below);
  }

  /** The opcode table on the bytes the emitter writes. */
  lemma DataOpcodes()
    ensures V.FromByte(OP_LOAD_CONST) == Some(V.LoadConst)
    ensures V.FromByte(OP_LOAD_LOCAL) == Some(V.LoadLocal)
    ensures V.FromByte(OP_STORE_LOCAL) == Some(V.StoreLocal)
    ensures V.FromByte(OP_LOAD_LOCAL_ADDR) == Some(V.LoadLocalAddr)
    ensures V.FromByte(OP_DROP) == Some(V.Drop)
  {
  }

  lemma UnaryOpcodes()
    ensures V.FromByte(OP_NOT) == Some(V.Not)
    ensures V.FromByte(OP_NEG) == Some(V.Neg)
  {
  }

  lemma ControlOpcodes()
    ensures V.FromByte(OP_JUMP) == Some(V.Jump)
    ensures V.FromByte(OP_JUMP_IF) == Some(V.JumpIf)
    ensures V.FromByte(OP_SWITCH_INT) == Some(V.SwitchInt)
    ensures V.FromByte(OP_ASSERT) == Some(V.Assert)
  {
  }

  lemma ExitOpcodes()
    ensures V.FromByte(OP_RETURN) == Some(V.Return)
    ensures V.FromByte(OP_TRAP) == Some(V.Trap)
  {
  }

  /** The frame runs code that uses the body's block offsets. */
  ghost predicate Runs(m: V.Module, fr: V.Frame, body: Body) {
    && Compilable(body)
    && fr.func < |m.functions|
    && var f := m.functions[fr.func];
       f == Compile(body).(argCount := f.argCount, code := f.code) && |f.code| <= ISIZE_MAX
  }

  /** And the code is the body's own. */
  ghost predicate RunsCompiled(m: V.Module, fr: V.Frame, body: Body) {
    Runs(m, fr, body) && m.functions[fr.func].code == Compile(body).code
  }

  function VmErrorOf(e: MirError): V.VmError {
    match e
    case BadLocal(i) => V.LocalOutOfBounds(i)
    case ArithmeticTrap => V.AbnormalTermination
    case AssertFailed => V.AssertionFailed
    case ReachedUnreachable => V.AbnormalTermination
    case NoSuchBlock => V.UnexpectedEndOfCode
  }

  lemma {:induction false} StepsCompose(m: V.Module, s: V.State, j: nat, k: nat)
    ensures V.Steps(m, s, j + k) ==
            match V.Steps(m, s, j)
            case Next(t) => V.Steps(m, t, k)
            case Done(r) => V.Done(r)
    decreases j
  {
    hide V.Step;
    if j > 0 && V.Step(m, s).Next? {
      StepsCompose(m, V.Step(m, s).state, j - 1, k);
    }
  }

  lemma NoStep(m: V.Module, s: V.State)
    ensures V.Steps(m, s, 0) == V.Next(s)
  {
  }

  lemma OneStep(m: V.Module, s: V.State)
    ensures V.Steps(m, s, 1) == V.Step(m, s)
  {
    hide V.Step;
    if V.Step(m, s).Next? {
      assert V.Steps(m, V.Step(m, s).state, 0) == V.Next(V.Step(m, s).state);
    }
  }

  // ----- single instructions -----

  lemma FetchOp(code: Bytes, pc: nat, op: u8, rest: Bytes)
    requires CodeAt(code, pc, [op] + rest)
    ensures pc < |code| && code[pc] == op && CodeAt(code, pc + 1, rest)
  {
    CodeAtSplit(code, pc, [op], rest);
    assert code[pc] == code[pc..pc + 1][0];
  }

  lemma FetchOperand(code: Bytes, pc: nat, v: u32)
    requires CodeAt(code, pc, U32Le(v))
    ensures V.FetchU32(code, pc) == Some(v)
  {
    U32RoundTrip(v);
  }

  lemma FetchConst(code: Bytes, pc: nat, v: i64)
    requires CodeAt(code, pc, I64Le(v))
    ensures V.FetchI64(code, pc) == Some(v)
  {
    I64RoundTrip(v);
  }

  /** Fetching the opcode at pc: the step is that instruction, with the pc moved past the opcode. */
  lemma Dispatch(m: V.Module, s: V.State, below: seq<V.Frame>, fr: V.Frame, pc: nat, locals: seq<i64>,
                 stack: seq<V.Value>, op: u8, rest: Bytes) returns (s1: V.State)
    requires fr.func < |m.functions| && Here(s, below, fr, pc, locals, stack)
    requires CodeAt(m.functions[fr.func].code, pc, [op] + rest) && V.FromByte(op).Some?
    ensures Here(s1, below, fr, pc + 1, locals, stack) && V.Ready(m, s1)
    ensures CodeAt(m.functions[fr.func].code, pc + 1, rest)
    ensures V.Step(m, s) == V.Exec(m, s1, V.FromByte(op).value)
  {
    hide V.Exec, V.FromByte, V.Top, V.WithTop;
    TopLaws(below);
    FetchOp(m.functions[fr.func].code, pc, op, rest);
    s1 := V.WithPc(s, pc + 1);
  }

  /** The step or steps r computed the MIR result res onto the operand stack. */
  ghost predicate Pushed(r: V.StepResult, below: seq<V.Frame>, fr: V.Frame, pc: nat, locals: seq<i64>,
                         stack: seq<V.Value>, res: Result<i64, MirError>) {
    match res
    case Ok(v) => r.Next? && Here(r.state, below, fr, pc, locals, stack + [V.Int(v)])
    case Err(e) => r == V.Stop(VmErrorOf(e))
  }

  lemma OperandSim(m: V.Module, s: V.State, below: seq<V.Frame>, fr: V.Frame, pc: nat, locals: seq<i64>,
                   stack: seq<V.Value>, o: Operand)
    requires fr.func < |m.functions| && Here(s, below, fr, pc, locals, stack)
    requires ScalarOperand(o) && CodeAt(m.functions[fr.func].code, pc, OperandBytes(o))
    ensures Pushed(V.Step(m, s), below, fr, pc + |OperandBytes(o)|, locals, stack, EvalOperand(o, locals))
  {
    hide CodeAt, V.FetchU32, V.FetchI64, V.Step, V.FromByte, V.Top, V.WithTop;
    TopLaws(below);
    DataOpcodes();
    var code := m.functions[fr.func].code;
    if o.Constant? {
      var v := ConstValue(o.value);
      var s1 := Dispatch(m, s, below, fr, pc, locals, stack, OP_LOAD_CONST, I64Le(v));
      FetchConst(code, pc + 1, v);
    } else {
      var i := o.place.local;
      var s1 := Dispatch(m, s, below, fr, pc, locals, stack, OP_LOAD_LOCAL, U32Le(i));
      FetchOperand(code, pc + 1, i);
    }
  }

  lemma BinopAgrees(op: BinOp, a: i64, b: i64)
    ensures var vop := V.FromByte(BinOpcode(op));
            && vop.Some? && V.IsBinary(vop.value)
            && EvalBinary(op, a, b) ==
               match V.Binop(vop.value, a, b)
               case Some(r) => Ok(r)
               case None => Err(ArithmeticTrap)
  {
    hide CheckedDiv, CheckedRem, Bitwise, Int64.Shl, Int64.Shr, Wrap, Bool;
  }

  lemma BinarySim(m: V.Module, s: V.State, below: seq<V.Frame>, fr: V.Frame, pc: nat, locals: seq<i64>,
                  stack: seq<V.Value>, op: BinOp, a: i64, b: i64)
    requires fr.func < |m.functions| && Here(s, below, fr, pc, locals, stack + [V.Int(a)] + [V.Int(b)])
    requires CodeAt(m.functions[fr.func].code, pc, [BinOpcode(op)])
    ensures Pushed(V.Step(m, s), below, fr, pc + 1, locals, stack, EvalBinary(op, a, b))
  {
    hide V.Exec, V.Step, EvalBinary, V.Binop, V.FromByte, V.Top, V.WithTop;
    TopLaws(below);
    BinopAgrees(op, a, b);
    assert [BinOpcode(op)] + [] == [BinOpcode(op)];
    var st := stack + [V.Int(a)] + [V.Int(b)];
    var s1 := Dispatch(m, s, below, fr, pc, locals, st, BinOpcode(op), []);
    assert V.Peek(s1, 0) == V.Int(b) && V.Peek(s1, 1) == V.Int(a);
    assert st[..|st| - 2] == stack;
    var vop := V.FromByte(BinOpcode(op)).value;
    V.BinaryExec(m, s1, vop);
  }

  lemma UnarySim(m: V.Module, s: V.State, below: seq<V.Frame>, fr: V.Frame, pc: nat, locals: seq<i64>,
                 stack: seq<V.Value>, op: UnOp, onBool: bool, a: i64)
    requires fr.func < |m.functions| && Here(s, below, fr, pc, locals, stack + [V.Int(a)])
    requires !op.DerefOp? && (op.Not? ==> onBool)
    requires CodeAt(m.functions[fr.func].code, pc, [if op.Not? then OP_NOT else OP_NEG])
    ensures Pushed(V.Step(m, s), below, fr, pc + 1, locals, stack, Ok(EvalUnary(op, onBool, a)))
  {
    hide V.Step, V.Top, V.WithTop, V.FromByte, V.Pop, V.Peek, Wrap;
    TopLaws(below);
    UnaryOpcodes();
    var code := if op.Not? then OP_NOT else OP_NEG;
    assert [code] + [] == [code];
    var s1 := Dispatch(m, s, below, fr, pc, locals, stack + [V.Int(a)], code, []);
    StackLaws(stack, V.Int(a), s1.frames);
  }

  // ----- rvalues and statements -----

  function RvalueSteps(r: Rvalue): nat {
    match r
    case BinaryOp(_, _, _) => 3
    case UnaryOp(_, _) => 2
    case _ => 1
  }

  lemma BinaryRvalueSim(m: V.Module, s: V.State, below: seq<V.Frame>, fr: V.Frame, pc: nat, locals: seq<i64>,
                        stack: seq<V.Value>, body: Body, op: BinOp, lo: Operand, ro: Operand)
    requires fr.func < |m.functions| && Here(s, below, fr, pc, locals, stack)
    requires ScalarOperand(lo) && ScalarOperand(ro)
    requires CodeAt(m.functions[fr.func].code, pc, RvalueBytes(BinaryOp(op, lo, ro)))
    ensures Pushed(V.Steps(m, s, 3), below, fr, pc + |RvalueBytes(BinaryOp(op, lo, ro))|, locals, stack,
                   EvalRvalue(body, BinaryOp(op, lo, ro), locals))
  {
    hide V.Step, Here, V.Steps, EvalBinary, OperandBytes, EvalOperand, BinOpcode;
    var code := m.functions[fr.func].code;
    var lb, rb := OperandBytes(lo), OperandBytes(ro);
    CodeAtSplit(code, pc, lb + rb, [BinOpcode(op)]);
    CodeAtSplit(code, pc, lb, rb);
    OperandSim(m, s, below, fr, pc, locals, stack, lo);
    OneStep(m, s);
    StepsCompose(m, s, 1, 2);
    if EvalOperand(lo, locals).Ok? {
      var a, s1 := EvalOperand(lo, locals).value, V.Step(m, s).state;
      OperandSim(m, s1, below, fr, pc + |lb|, locals, stack + [V.Int(a)], ro);
      StepsCompose(m, s1, 1, 1);
      OneStep(m, s1);
      if EvalOperand(ro, locals).Ok? {
        var b, s2 := EvalOperand(ro, locals).value, V.Step(m, s1).state;
        BinarySim(m, s2, below, fr, pc + |lb| + |rb|, locals, stack, op, a, b);
        OneStep(m, s2);
      }
    }
  }

  lemma UnaryRvalueSim(m: V.Module, s: V.State, below: seq<V.Frame>, fr: V.Frame, pc: nat, locals: seq<i64>,
                       stack: seq<V.Value>, body: Body, op: UnOp, o: Operand)
    requires fr.func < |m.functions| && Here(s, below, fr, pc, locals, stack)
    requires !op.DerefOp? && ScalarOperand(o) && (op.Not? ==> IsBoolOperand(body, o))
    requires CodeAt(m.functions[fr.func].code, pc, RvalueBytes(UnaryOp(op, o)))
    ensures Pushed(V.Steps(m, s, 2), below, fr, pc + |RvalueBytes(UnaryOp(op, o))|, locals, stack,
                   EvalRvalue(body, UnaryOp(op, o), locals))
  {
    hide V.Step, Here, V.Steps, EvalUnary, IsBoolOperand, OperandBytes, EvalOperand;
    var ob, opb := OperandBytes(o), [if op.Not? then OP_NOT else OP_NEG];
    CodeAtSplit(m.functions[fr.func].code, pc, ob, opb);
    OperandSim(m, s, below, fr, pc, locals, stack, o);
    OneStep(m, s);
    StepsCompose(m, s, 1, 1);
    if EvalOperand(o, locals).Ok? {
      var a, s1 := EvalOperand(o, locals).value, V.Step(m, s).state;
      UnarySim(m, s1, below, fr, pc + |ob|, locals, stack, op, IsBoolOperand(body, o), a);
      OneStep(m, s1);
    }
  }

  lemma UseSim(m: V.Module, s: V.State, below: seq<V.Frame>, fr: V.Frame, pc: nat, locals: seq<i64>,
               stack: seq<V.Value>, body: Body, o: Operand)
    requires fr.func < |m.functions| && Here(s, below, fr, pc, locals, stack)
    requires ScalarOperand(o) && CodeAt(m.functions[fr.func].code, pc, RvalueBytes(Use(o)))
    ensures Pushed(V.Steps(m, s, 1), below, fr, pc + |RvalueBytes(Use(o))|, locals, stack,
                   EvalRvalue(body, Use(o), locals))
  {
    hide V.Step, Here, V.Steps, EvalOperand, OperandBytes, Pushed;
    OperandSim(m, s, below, fr, pc, locals, stack, o);
    OneStep(m, s);
  }

  lemma RvalueSim(m: V.Module, s: V.State, below: seq<V.Frame>, fr: V.Frame, pc: nat, locals: seq<i64>,
                  stack: seq<V.Value>, body: Body, r: Rvalue)
    requires fr.func < |m.functions| && Here(s, below, fr, pc, locals, stack)
    requires ScalarRvalue(r) && (r.UnaryOp? && r.unop.Not? ==> IsBoolOperand(body, r.operand))
    requires CodeAt(m.functions[fr.func].code, pc, RvalueBytes(r))
    ensures Pushed(V.Steps(m, s, RvalueSteps(r)), below, fr, pc + |RvalueBytes(r)|, locals, stack,
                   EvalRvalue(body, r, locals))
  {
    hide V.Step, Here, V.Steps, EvalRvalue, EvalOperand, RvalueBytes, OperandBytes, IsBoolOperand, Pushed;
    match r
    case Use(o) => UseSim(m, s, below, fr, pc, locals, stack, body, o);
    case BinaryOp(op, lo, ro) => BinaryRvalueSim(m, s, below, fr, pc, locals, stack, body, op, lo, ro);
    case UnaryOp(op, o) => UnaryRvalueSim(m, s, below, fr, pc, locals, stack, body, op, o);
  }

  /** The statements, run by r, turned the locals into those of the MIR, with nothing left on the stack. */
  ghost predicate Moved(r: V.StepResult, below: seq<V.Frame>, fr: V.Frame, pc: nat, stack: seq<V.Value>,
                        res: Result<seq<i64>, MirError>) {
    match res
    case Ok(locals) => r.Next? && Here(r.state, below, fr, pc, locals, stack)
    case Err(e) => r == V.Stop(VmErrorOf(e))
  }

  lemma SetIntLocal(f: V.Frame, locals: seq<i64>, i: nat, v: i64)
    requires f.locals == Ints(locals) && i < |locals|
    ensures var g := V.SetLocal(f, i, V.Int(v)); g == f.(locals := Ints(locals[i := v]), mem := g.mem)
  {
    hide V.Mirror;
    assert Ints(locals[i := v]) == Ints(locals)[i := V.Int(v)];
  }

  lemma StoreSim(m: V.Module, s: V.State, below: seq<V.Frame>, fr: V.Frame, pc: nat, locals: seq<i64>,
                 stack: seq<V.Value>, i: Local, v: i64)
    requires fr.func < |m.functions| && Here(s, below, fr, pc, locals, stack + [V.Int(v)])
    requires CodeAt(m.functions[fr.func].code, pc, [OP_STORE_LOCAL] + U32Le(i))
    ensures Moved(V.Step(m, s), below, fr, pc + 5, stack,
                  if i < |locals| then Ok(locals[i := v]) else Err(BadLocal(i)))
  {
    hide CodeAt, V.FetchU32, V.FetchI64, V.Step, V.Mirror, V.Top, V.WithTop, V.FromByte, V.Pop, V.Peek, V.SetLocal;
    TopLaws(below);
    DataOpcodes();
    var s1 := Dispatch(m, s, below, fr, pc, locals, stack + [V.Int(v)], OP_STORE_LOCAL, U32Le(i));
    FetchOperand(m.functions[fr.func].code, pc + 1, i);
    if i < |locals| {
      var f := V.Top(s1).(pc := pc + 5);
      var g := V.SetLocal(f, i, V.Int(v));
      StackLaws(stack, V.Int(v), s1.frames);
      StackLaws(stack, V.Int(v), below + [g]);
      SetIntLocal(f, locals, i, v);
    } else {
      StackLaws(stack, V.Int(v), s1.frames);
    }
  }

  function StatementSteps(s: Statement): nat {
    if s.Assign? then RvalueSteps(s.rvalue) + 1 else 0
  }

  lemma StatementSim(m: V.Module, s: V.State, below: seq<V.Frame>, fr: V.Frame, pc: nat, locals: seq<i64>,
                     stack: seq<V.Value>, body: Body, st: Statement)
    requires fr.func < |m.functions| && Here(s, below, fr, pc, locals, stack)
    requires ScalarStatement(st) && FaithfulStatement(body, st)
    requires CodeAt(m.functions[fr.func].code, pc, StatementBytes(st))
    ensures Moved(V.Steps(m, s, StatementSteps(st)), below, fr, pc + |StatementBytes(st)|, stack,
                  ExecStatement(body, st, locals))
  {
    hide V.Step, Here, EvalRvalue, V.Steps, RvalueBytes, IsBoolOperand;
    if st.Assign? {
      var rb := RvalueBytes(st.rvalue);
      CodeAtSplit(m.functions[fr.func].code, pc, rb, [OP_STORE_LOCAL] + U32Le(st.dest.local));
      RvalueSim(m, s, below, fr, pc, locals, stack, body, st.rvalue);
      StepsCompose(m, s, RvalueSteps(st.rvalue), 1);
      var res := EvalRvalue(body, st.rvalue, locals);
      if res.Ok? {
        var s1 := V.Steps(m, s, RvalueSteps(st.rvalue)).state;
        OneStep(m, s1);
        StoreSim(m, s1, below, fr, pc + |rb|, locals, stack, st.dest.local, res.value);
      }
    } else {
      NoStep(m, s);
    }
  }

  function StatementsSteps(ss: seq<Statement>): nat {
    if ss == [] then 0 else StatementSteps(ss[0]) + StatementsSteps(ss[1..])
  }

  lemma {:induction false} StatementsSim(m: V.Module, s: V.State, below: seq<V.Frame>, fr: V.Frame, pc: nat,
                                         locals: seq<i64>, stack: seq<V.Value>, body: Body, ss: seq<Statement>)
    requires fr.func < |m.functions| && Here(s, below, fr, pc, locals, stack)
    requires forall st <- ss :: ScalarStatement(st) && FaithfulStatement(body, st)
    requires CodeAt(m.functions[fr.func].code, pc, StatementsBytes(ss))
    ensures Moved(V.Steps(m, s, StatementsSteps(ss)), below, fr, pc + |StatementsBytes(ss)|, stack,
                  ExecStatements(body, ss, locals))
    decreases |ss|
  {
    hide V.Step, Here, V.Steps, FaithfulStatement, ScalarStatement, StatementBytes, ExecStatement, StatementSteps;
    if ss == [] {
      NoStep(m, s);
    } else {
      var b, rest := StatementBytes(ss[0]), StatementsBytes(ss[1..]);
      CodeAtSplit(m.functions[fr.func].code, pc, b, rest);
      StatementSim(m, s, below, fr, pc, locals, stack, body, ss[0]);
      StepsCompose(m, s, StatementSteps(ss[0]), StatementsSteps(ss[1..]));
      var res := ExecStatement(body, ss[0], locals);
      if res.Ok? {
        var s1 := V.Steps(m, s, StatementSteps(ss[0])).state;
        StatementsSim(m, s1, below, fr, pc + |b|, res.value, stack, body, ss[1..]);
      }
    }
  }

  // ----- control flow -----

  lemma {:induction false} CodePrefix(body: Body, b: nat, n: nat)
    requires ScalarBody(body) && b <= n <= |body.blocks|
    ensures |CodeOf(body, b)| <= |CodeOf(body, n)|
    ensures CodeOf(body, n)[..|CodeOf(body, b)|] == CodeOf(body, b)
    decreases n
  {
    hide BlockBytes;
    if b < n {
      CodePrefix(body, b, n - 1);
      assert body.blocks[n - 1] in body.blocks;
      assert CodeOf(body, n)[..|CodeOf(body, b)|] == CodeOf(body, n - 1)[..|CodeOf(body, b)|];
    }
  }

  /** Every block's bytes stand at its recorded offset. */
  lemma BlockAtOffset(body: Body, b: nat)
    requires ScalarBody(body) && b < |body.blocks|
    ensures ScalarBlock(body.blocks[b])
    ensures CodeAt(Compile(body).code, |CodeOf(body, b)|, BlockBytes(body, body.blocks[b]))
  {
    hide BlockBytes;
    assert body.blocks[b] in body.blocks;
    CodePrefix(body, b + 1, |body.blocks|);
    var code, upto := CodeOf(body, |body.blocks|), CodeOf(body, b + 1);
    assert upto == CodeOf(body, b) + BlockBytes(body, body.blocks[b]);
    var lo, hi := |CodeOf(body, b)|, |upto|;
    assert code[lo..hi] == code[..hi][lo..];
  }

  lemma Resolves(m: V.Module, fr: V.Frame, body: Body, b: Block)
    requires Runs(m, fr, body) && body.blocks != []
    ensures V.ResolveTarget(m.functions[fr.func], b) ==
            if b < |body.blocks| then |CodeOf(body, b)| else USIZE_MAX
  {
    hide CodeOf;
  }

  /** The caller's top frame received v in its destination slot and resumed at its block. */
  ghost predicate HandedBack(m: V.Module, t: V.State, below: seq<V.Frame>, fr: V.Frame, v: i64)
    requires below != [] && below[|below| - 1].func < |m.functions|
  {
    var caller := below[|below| - 1];
    var slots := if fr.destLocal < |caller.locals| then caller.locals[fr.destLocal := V.Int(v)] else caller.locals;
    && t.stack == []
    && t.frames == below[|below| - 1 :=
         caller.(locals := slots, pc := V.ResolveTarget(m.functions[caller.func], fr.resumeTarget))]
  }

  /** The machine result r is the MIR outcome `out` of a function running above `below`. */
  ghost predicate EndsAs(m: V.Module, r: V.StepResult, below: seq<V.Frame>, fr: V.Frame, body: Body, out: Outcome)
    requires Compilable(body) && Callers(m, below)
  {
    match out
    case At(b, locals) => b < |body.blocks| && r.Next? && Here(r.state, below, fr, |CodeOf(body, b)|, locals, [])
    case Returned(v) =>
      if below == [] then r == V.Done(Ok(V.Int(v))) else r.Next? && HandedBack(m, r.state, below, fr, v)
    case Failed(e) => r == V.Stop(VmErrorOf(e))
  }

  ghost predicate Callers(m: V.Module, below: seq<V.Frame>) {
    below != [] ==> below[|below| - 1].func < |m.functions|
  }

  /** Arriving at a jump's target, or running off the code when there is no such block. */
  lemma Arrive(m: V.Module, s: V.State, below: seq<V.Frame>, fr: V.Frame, locals: seq<i64>, body: Body, b: Block)
    returns (k: nat)
    requires Runs(m, fr, body) && Callers(m, below) && body.blocks != []
    requires Here(s, below, fr, V.ResolveTarget(m.functions[fr.func], b), locals, [])
    ensures EndsAs(m, V.Steps(m, s, k), below, fr, body, GoTo(body, b, locals))
  {
    hide V.Steps, V.Exec, V.FromByte, CodeOf, V.ResolveTarget;
    Resolves(m, fr, body, b);
    if b < |body.blocks| {
      k := 0;
      NoStep(m, s);
    } else {
      k := 1;
      OneStep(m, s);
    }
  }

  lemma JumpStep(m: V.Module, s: V.State, below: seq<V.Frame>, fr: V.Frame, pc: nat, locals: seq<i64>, b: Block)
    requires fr.func < |m.functions| && Here(s, below, fr, pc, locals, [])
    requires CodeAt(m.functions[fr.func].code, pc, JumpBytes(b))
    ensures V.Step(m, s).Next?
    ensures Here(V.Step(m, s).state, below, fr, V.ResolveTarget(m.functions[fr.func], b), locals, [])
  {
    hide V.Step, V.FromByte, V.ResolveTarget, V.Top, V.WithTop;
    TopLaws(below);
    ControlOpcodes();
    var s1 := Dispatch(m, s, below, fr, pc, locals, [], OP_JUMP, U32Le(b));
    FetchOperand(m.functions[fr.func].code, pc + 1, b);
  }

  lemma JumpSim(m: V.Module, s: V.State, below: seq<V.Frame>, fr: V.Frame, pc: nat, locals: seq<i64>, body: Body,
                b: Block)
    returns (k: nat)
    requires Runs(m, fr, body) && Callers(m, below) && body.blocks != []
    requires Here(s, below, fr, pc, locals, [])
    requires CodeAt(m.functions[fr.func].code, pc, JumpBytes(b))
    ensures k > 0 && EndsAs(m, V.Steps(m, s, k), below, fr, body, GoTo(body, b, locals))
  {
    hide V.Step, V.Steps, CodeOf, V.ResolveTarget, EndsAs, GoTo, JumpBytes, Here, Compilable;
    JumpStep(m, s, below, fr, pc, locals, b);
    OneStep(m, s);
    k := Arrive(m, V.Step(m, s).state, below, fr, locals, body, b);
    StepsCompose(m, s, 1, k);
    k := k + 1;
  }

  lemma JumpIfStep(m: V.Module, s: V.State, below: seq<V.Frame>, fr: V.Frame, pc: nat, locals: seq<i64>, d: i64,
                   yes: Block)
    requires fr.func < |m.functions| && Here(s, below, fr, pc, locals, [V.Int(d)])
    requires CodeAt(m.functions[fr.func].code, pc, [OP_JUMP_IF] + U32Le(yes))
    ensures V.Step(m, s).Next?
    ensures Here(V.Step(m, s).state, below, fr,
                 if d != 0 then V.ResolveTarget(m.functions[fr.func], yes) else pc + 5, locals, [])
  {
    hide V.Step, V.FromByte, V.Pop, V.Peek, V.ResolveTarget, V.Top, V.WithTop;
    TopLaws(below);
    ControlOpcodes();
    var s1 := Dispatch(m, s, below, fr, pc, locals, [V.Int(d)], OP_JUMP_IF, U32Le(yes));
    Popped(s1, below, V.Int(d));
    FetchOperand(m.functions[fr.func].code, pc + 1, yes);
  }

  lemma JumpIfSim(m: V.Module, s: V.State, below: seq<V.Frame>, fr: V.Frame, pc: nat, locals: seq<i64>, body: Body,
                  d: i64, yes: Block, no: Block) returns (k: nat)
    requires Runs(m, fr, body) && Callers(m, below) && body.blocks != []
    requires Here(s, below, fr, pc, locals, [V.Int(d)])
    requires CodeAt(m.functions[fr.func].code, pc, [OP_JUMP_IF] + U32Le(yes) + JumpBytes(no))
    ensures k > 0 && EndsAs(m, V.Steps(m, s, k), below, fr, body, GoTo(body, if d != 0 then yes else no, locals))
  {
    hide V.Step, V.Steps, CodeOf, V.ResolveTarget, EndsAs, GoTo, JumpBytes, Here, Compilable;
    CodeAtSplit(m.functions[fr.func].code, pc, [OP_JUMP_IF] + U32Le(yes), JumpBytes(no));
    JumpIfStep(m, s, below, fr, pc, locals, d, yes);
    OneStep(m, s);
    var t := V.Step(m, s).state;
    if d != 0 {
      k := Arrive(m, t, below, fr, locals, body, yes);
    } else {
      k := JumpSim(m, t, below, fr, pc + 5, locals, body, no);
    }
    StepsCompose(m, s, 1, k);
    k := k + 1;
  }

  function Or(taken: Option<u32>, otherwise: Block): Block {
    if taken.Some? then taken.value else otherwise
  }

  lemma {:induction false} ScanArms(code: Bytes, pc: nat, arms: seq<Arm>, d: i64, taken: Option<u32>, otherwise: Block)
    requires CodeAt(code, pc, ArmsBytes(arms))
    ensures var r := V.SwitchScan(code, pc, |arms|, d, taken);
            && r.Some?
            && r.value.0 == pc + |ArmsBytes(arms)|
            && Or(r.value.1, otherwise) == LastArm(arms, Or(taken, otherwise), d)
    decreases |arms|
  {
    if arms != [] {
      var v, t := Wrap(arms[0].value), arms[0].target;
      CodeAtSplit(code, pc, I64Le(v) + U32Le(t), ArmsBytes(arms[1..]));
      CodeAtSplit(code, pc, I64Le(v), U32Le(t));
      FetchConst(code, pc, v);
      FetchOperand(code, pc + 8, t);
      ScanArms(code, pc + 12, arms[1..], d, if v == d then Some(t) else taken, otherwise);
    }
  }

  lemma SwitchStep(m: V.Module, s: V.State, below: seq<V.Frame>, fr: V.Frame, pc: nat, locals: seq<i64>, d: i64,
                   arms: seq<Arm>, otherwise: Block)
    requires fr.func < |m.functions| && Here(s, below, fr, pc, locals, [V.Int(d)]) && |arms| <= U32_MAX
    requires CodeAt(m.functions[fr.func].code, pc, [OP_SWITCH_INT] + U32Le(|arms|) + ArmsBytes(arms) + U32Le(otherwise))
    ensures V.Step(m, s).Next?
    ensures Here(V.Step(m, s).state, below, fr,
                 V.ResolveTarget(m.functions[fr.func], LastArm(arms, otherwise, d)), locals, [])
  {
    hide CodeAt, V.FetchU32, V.FetchI64, V.Step, V.FromByte, V.Pop, V.Peek, V.ResolveTarget, V.Top, V.WithTop,
         ArmsBytes, V.SwitchScan, LastArm;
    TopLaws(below);
    ControlOpcodes();
    var code, n := m.functions[fr.func].code, |arms|;
    CodeAtSplit(code, pc, [OP_SWITCH_INT] + U32Le(n) + ArmsBytes(arms), U32Le(otherwise));
    CodeAtSplit(code, pc, [OP_SWITCH_INT] + U32Le(n), ArmsBytes(arms));
    var s1 := Dispatch(m, s, below, fr, pc, locals, [V.Int(d)], OP_SWITCH_INT, U32Le(n));
    Popped(s1, below, V.Int(d));
    FetchOperand(code, pc + 1, n);
    ScanArms(code, pc + 5, arms, d, None, otherwise);
    FetchOperand(code, pc + 5 + |ArmsBytes(arms)|, otherwise);
  }

  lemma SwitchSim(m: V.Module, s: V.State, below: seq<V.Frame>, fr: V.Frame, pc: nat, locals: seq<i64>, body: Body,
                  d: i64, arms: seq<Arm>, otherwise: Block) returns (k: nat)
    requires Runs(m, fr, body) && Callers(m, below) && body.blocks != []
    requires Here(s, below, fr, pc, locals, [V.Int(d)]) && |arms| <= U32_MAX
    requires CodeAt(m.functions[fr.func].code, pc, [OP_SWITCH_INT] + U32Le(|arms|) + ArmsBytes(arms) + U32Le(otherwise))
    ensures k > 0 && EndsAs(m, V.Steps(m, s, k), below, fr, body, GoTo(body, LastArm(arms, otherwise, d), locals))
  {
    hide V.Step, V.Steps, CodeOf, V.ResolveTarget, EndsAs, GoTo, ArmsBytes, LastArm, Here, Compilable, CodeAt;
    SwitchStep(m, s, below, fr, pc, locals, d, arms, otherwise);
    OneStep(m, s);
    k := Arrive(m, V.Step(m, s).state, below, fr, locals, body, LastArm(arms, otherwise, d));
    StepsCompose(m, s, 1, k);
    k := k + 1;
  }

  lemma AssertStep(m: V.Module, s: V.State, below: seq<V.Frame>, fr: V.Frame, pc: nat, locals: seq<i64>, c: i64,
                   expected: bool, b: Block)
    requires fr.func < |m.functions| && Here(s, below, fr, pc, locals, [V.Int(c)])
    requires CodeAt(m.functions[fr.func].code, pc, [OP_ASSERT, if expected then 1 else 0] + U32Le(b))
    ensures if (c != 0) == expected then
              && V.Step(m, s).Next?
              && Here(V.Step(m, s).state, below, fr, V.ResolveTarget(m.functions[fr.func], b), locals, [])
            else V.Step(m, s) == V.Stop(V.AssertionFailed)
  {
    hide CodeAt, V.FetchU32, V.FetchI64, V.Step, V.FromByte, V.Pop, V.Peek, V.ResolveTarget, V.Top, V.WithTop;
    TopLaws(below);
    ControlOpcodes();
    var code, e: u8 := m.functions[fr.func].code, if expected then 1 else 0;
    assert [OP_ASSERT, e] + U32Le(b) == [OP_ASSERT] + ([e] + U32Le(b));
    var s1 := Dispatch(m, s, below, fr, pc, locals, [V.Int(c)], OP_ASSERT, [e] + U32Le(b));
    Popped(s1, below, V.Int(c));
    FetchOp(code, pc + 1, e, U32Le(b));
    FetchOperand(code, pc + 2, b);
  }

  lemma AssertSim(m: V.Module, s: V.State, below: seq<V.Frame>, fr: V.Frame, pc: nat, locals: seq<i64>, body: Body,
                  c: i64, expected: bool, b: Block) returns (k: nat)
    requires Runs(m, fr, body) && Callers(m, below) && body.blocks != []
    requires Here(s, below, fr, pc, locals, [V.Int(c)])
    requires CodeAt(m.functions[fr.func].code, pc, [OP_ASSERT, if expected then 1 else 0] + U32Le(b))
    ensures k > 0 && EndsAs(m, V.Steps(m, s, k), below, fr, body,
                            if (c != 0) == expected then GoTo(body, b, locals) else Failed(AssertFailed))
  {
    hide V.Step, V.Steps, CodeOf, V.ResolveTarget, GoTo, Here, Compilable, CodeAt;
    AssertStep(m, s, below, fr, pc, locals, c, expected, b);
    OneStep(m, s);
    k := 0;
    if (c != 0) == expected {
      k := Arrive(m, V.Step(m, s).state, below, fr, locals, body, b);
    }
    StepsCompose(m, s, 1, k);
    k := k + 1;
  }

  lemma AddressStep(m: V.Module, s: V.State, below: seq<V.Frame>, fr: V.Frame, pc: nat, locals: seq<i64>, i: Local)
    requires fr.func < |m.functions| && Here(s, below, fr, pc, locals, [])
    requires CodeAt(m.functions[fr.func].code, pc, [OP_LOAD_LOCAL_ADDR] + U32Le(i))
    ensures V.Step(m, s).Next? && Here(V.Step(m, s).state, below, fr, pc + 5, locals, [V.Int(i)])
  {
    hide CodeAt, V.FetchU32, V.FetchI64, V.Step, V.FromByte, V.Top, V.WithTop;
    TopLaws(below);
    DataOpcodes();
    var s1 := Dispatch(m, s, below, fr, pc, locals, [], OP_LOAD_LOCAL_ADDR, U32Le(i));
    FetchOperand(m.functions[fr.func].code, pc + 1, i);
  }

  lemma DropStep(m: V.Module, s: V.State, below: seq<V.Frame>, fr: V.Frame, pc: nat, locals: seq<i64>, v: V.Value)
    requires fr.func < |m.functions| && Here(s, below, fr, pc, locals, [v])
    requires CodeAt(m.functions[fr.func].code, pc, [OP_DROP])
    ensures V.Step(m, s).Next? && Here(V.Step(m, s).state, below, fr, pc + 1, locals, [])
  {
    hide V.Step, V.FromByte, V.Pop, V.Peek, V.Top, V.WithTop;
    TopLaws(below);
    DataOpcodes();
    assert [OP_DROP] + [] == [OP_DROP];
    var s1 := Dispatch(m, s, below, fr, pc, locals, [v], OP_DROP, []);
    Popped(s1, below, v);
  }

  /** Taking the address of a local and dropping it leaves everything but the pc as it was. */
  lemma AddressDropped(m: V.Module, s: V.State, below: seq<V.Frame>, fr: V.Frame, pc: nat, locals: seq<i64>, i: Local)
    requires fr.func < |m.functions| && Here(s, below, fr, pc, locals, [])
    requires CodeAt(m.functions[fr.func].code, pc, [OP_LOAD_LOCAL_ADDR] + U32Le(i) + [OP_DROP])
    ensures V.Steps(m, s, 2).Next? && Here(V.Steps(m, s, 2).state, below, fr, pc + 6, locals, [])
  {
    hide V.Step, V.Steps, Here;
    CodeAtSplit(m.functions[fr.func].code, pc, [OP_LOAD_LOCAL_ADDR] + U32Le(i), [OP_DROP]);
    AddressStep(m, s, below, fr, pc, locals, i);
    DropStep(m, V.Step(m, s).state, below, fr, pc + 5, locals, V.Int(i));
    OneStep(m, s);
    OneStep(m, V.Step(m, s).state);
    StepsCompose(m, s, 1, 1);
  }

  lemma DropSim(m: V.Module, s: V.State, below: seq<V.Frame>, fr: V.Frame, pc: nat, locals: seq<i64>, body: Body,
                i: Local, b: Block) returns (k: nat)
    requires Runs(m, fr, body) && Callers(m, below) && body.blocks != []
    requires Here(s, below, fr, pc, locals, [])
    requires CodeAt(m.functions[fr.func].code, pc, [OP_LOAD_LOCAL_ADDR] + U32Le(i) + ([OP_DROP] + JumpBytes(b)))
    ensures k > 0 && EndsAs(m, V.Steps(m, s, k), below, fr, body, GoTo(body, b, locals))
  {
    hide V.Step, V.Steps, CodeOf, GoTo, EndsAs, JumpBytes, Here;
    var load := [OP_LOAD_LOCAL_ADDR] + U32Le(i);
    assert load + ([OP_DROP] + JumpBytes(b)) == (load + [OP_DROP]) + JumpBytes(b);
    CodeAtSplit(m.functions[fr.func].code, pc, load + [OP_DROP], JumpBytes(b));
    AddressDropped(m, s, below, fr, pc, locals, i);
    k := JumpSim(m, V.Steps(m, s, 2).state, below, fr, pc + 6, locals, body, b);
    StepsCompose(m, s, 2, k);
    k := k + 2;
  }

  lemma ReturnStep(m: V.Module, s: V.State, below: seq<V.Frame>, f: V.Frame, stack: seq<V.Value>, v: i64)
    requires s == V.State(stack, below + [f]) && V.Ready(m, s) && Callers(m, below)
    requires stack == [V.Int(v)] || (stack == [] && v == 0)
    ensures var r := V.Exec(m, s, V.Return);
            if below == [] then r == V.Done(Ok(V.Int(v))) else r.Next? && HandedBack(m, r.state, below, f, v)
  {
    hide V.ResolveTarget;
    assert s.frames[..|s.frames| - 1] == below;
    if stack != [] {
      assert stack[..|stack| - 1] == [];
    }
  }

  lemma ReturnSim(m: V.Module, s: V.State, below: seq<V.Frame>, fr: V.Frame, pc: nat, locals: seq<i64>, body: Body,
                  stack: seq<V.Value>, v: i64)
    requires Runs(m, fr, body) && Callers(m, below)
    requires Here(s, below, fr, pc, locals, stack) && (stack == [V.Int(v)] || (stack == [] && v == 0))
    requires CodeAt(m.functions[fr.func].code, pc, [OP_RETURN])
    ensures EndsAs(m, V.Step(m, s), below, fr, body, Returned(v))
  {
    hide CodeAt, V.Exec, V.Step, CodeOf, V.ResolveTarget, Compilable, V.FromByte;
    ExitOpcodes();
    assert [OP_RETURN] + [] == [OP_RETURN];
    var s1 := Dispatch(m, s, below, fr, pc, locals, stack, OP_RETURN, []);
    ReturnStep(m, s1, below, V.Top(s1), stack, v);
  }

  lemma TerminatorSim(m: V.Module, s: V.State, below: seq<V.Frame>, fr: V.Frame, pc: nat, locals: seq<i64>, body: Body,
                      t: Terminator) returns (k: nat)
    requires Runs(m, fr, body) && Callers(m, below) && body.blocks != []
    requires Here(s, below, fr, pc, locals, [])
    requires ScalarTerminator(t) && (t.SwitchInt? ==> FaithfulArms(t.onBool, t.arms, t.otherwise))
    requires CodeAt(m.functions[fr.func].code, pc, TerminatorBytes(body, t))
    ensures k > 0 && EndsAs(m, V.Steps(m, s, k), below, fr, body, ExecTerminator(body, t, locals))
  {
    hide V.Step, V.Steps, CodeOf, V.ResolveTarget, GoTo, Here, JumpBytes, ArmsBytes, FaithfulArms, LastArm, FirstArm,
         Runs;
    match t
    case Goto(b) => k := JumpSim(m, s, below, fr, pc, locals, body, b);
    case Drop(p, b, _) => k := DropSim(m, s, below, fr, pc, locals, body, p.local, b);
    case Return =>
      if ReturnsUnit(body) {
        ReturnSim(m, s, below, fr, pc, locals, body, [], 0);
        OneStep(m, s);
        k := 1;
      } else {
        k := ReturnLocalSim(m, s, below, fr, pc, locals, body);
      }
    case Unreachable =>
      assert [OP_TRAP] + [] == [OP_TRAP];
      TrapSim(m, s, below, fr, pc, locals, body);
      OneStep(m, s);
      k := 1;
    case _ => k := BranchSim(m, s, below, fr, pc, locals, body, t);
  }

  lemma TrapSim(m: V.Module, s: V.State, below: seq<V.Frame>, fr: V.Frame, pc: nat, locals: seq<i64>, body: Body)
    requires Runs(m, fr, body) && Here(s, below, fr, pc, locals, [])
    requires CodeAt(m.functions[fr.func].code, pc, [OP_TRAP])
    ensures V.Step(m, s) == V.Stop(V.AbnormalTermination)
  {
    hide V.Step, CodeOf, Compilable, V.FromByte;
    ExitOpcodes();
    assert [OP_TRAP] + [] == [OP_TRAP];
    var s1 := Dispatch(m, s, below, fr, pc, locals, [], OP_TRAP, []);
  }

  lemma ReturnLocalSim(m: V.Module, s: V.State, below: seq<V.Frame>, fr: V.Frame, pc: nat, locals: seq<i64>, body: Body)
    returns (k: nat)
    requires Runs(m, fr, body) && Callers(m, below) && Here(s, below, fr, pc, locals, [])
    requires CodeAt(m.functions[fr.func].code, pc, LoadLocalBytes(0) + [OP_RETURN])
    ensures k > 0 && EndsAs(m, V.Steps(m, s, k), below, fr, body,
                            if locals == [] then Failed(BadLocal(0)) else Returned(locals[0]))
  {
    hide V.Step, V.Steps, CodeOf, Here;
    var o := Copy(Place(0, []));
    CodeAtSplit(m.functions[fr.func].code, pc, LoadLocalBytes(0), [OP_RETURN]);
    OperandSim(m, s, below, fr, pc, locals, [], o);
    OneStep(m, s);
    k := 1;
    if locals != [] {
      assert [] + [V.Int(locals[0])] == [V.Int(locals[0])];
      var t := V.Step(m, s).state;
      ReturnSim(m, t, below, fr, pc + 5, locals, body, [V.Int(locals[0])], locals[0]);
      OneStep(m, t);
      StepsCompose(m, s, 1, 1);
      k := 2;
    }
  }

  /** Terminators that branch on an operand. */
  lemma BranchSim(m: V.Module, s: V.State, below: seq<V.Frame>, fr: V.Frame, pc: nat, locals: seq<i64>, body: Body,
                  t: Terminator) returns (k: nat)
    requires Runs(m, fr, body) && Callers(m, below) && body.blocks != []
    requires Here(s, below, fr, pc, locals, []) && (t.SwitchInt? || t.Assert?)
    requires ScalarTerminator(t) && (t.SwitchInt? ==> FaithfulArms(t.onBool, t.arms, t.otherwise))
    requires CodeAt(m.functions[fr.func].code, pc, TerminatorBytes(body, t))
    ensures k > 0 && EndsAs(m, V.Steps(m, s, k), below, fr, body, ExecTerminator(body, t, locals))
  {
    hide V.Step, V.Steps, CodeOf, GoTo, Here, JumpBytes, ArmsBytes, FaithfulArms, LastArm, FirstArm, EvalOperand,
         OperandBytes, SwitchTarget, Compilable;
    var o := if t.SwitchInt? then t.discr else t.cond;
    var ob := OperandBytes(o);
    var rest := TerminatorBytes(body, t)[|ob|..];
    assert TerminatorBytes(body, t) == ob + rest;
    CodeAtSplit(m.functions[fr.func].code, pc, ob, rest);
    OperandSim(m, s, below, fr, pc, locals, [], o);
    OneStep(m, s);
    k := 0;
    var res := EvalOperand(o, locals);
    if res.Ok? {
      var u, d := V.Step(m, s).state, res.value;
      assert [] + [V.Int(d)] == [V.Int(d)];
      if t.SwitchInt? {
        SwitchExact(t.onBool, t.arms, t.otherwise);
        if t.onBool {
          k := JumpIfSim(m, u, below, fr, pc + |ob|, locals, body, d, FirstArm(t.arms, t.otherwise, 1), t.otherwise);
        } else {
          k := SwitchSim(m, u, below, fr, pc + |ob|, locals, body, d, t.arms, t.otherwise);
        }
        assert MachineTarget(t.onBool, t.arms, t.otherwise, d) == SwitchTarget(t.onBool, t.arms, t.otherwise, d);
      } else {
        k := AssertSim(m, u, below, fr, pc + |ob|, locals, body, d, t.expected, t.target);
      }
    }
    StepsCompose(m, s, 1, k);
    k := k + 1;
  }

  /** One block of MIR is one or more machine steps with the same outcome. */
  lemma BlockSim(m: V.Module, s: V.State, below: seq<V.Frame>, fr: V.Frame, locals: seq<i64>, body: Body, b: nat)
    returns (k: nat)
    requires Runs(m, fr, body) && Callers(m, below) && b < |body.blocks| && ScalarBlock(body.blocks[b])
    requires CodeAt(m.functions[fr.func].code, |CodeOf(body, b)|, BlockBytes(body, body.blocks[b]))
    requires Here(s, below, fr, |CodeOf(body, b)|, locals, [])
    ensures k > 0 && EndsAs(m, V.Steps(m, s, k), below, fr, body, ExecBlock(body, b, locals))
  {
    hide V.Step, V.Steps, CodeOf, Here, TerminatorBytes, StatementsBytes, ExecStatements, ExecTerminator;
    var bb, pc := body.blocks[b], |CodeOf(body, b)|;
    assert bb in body.blocks;
    var sb, tb := StatementsBytes(bb.statements), TerminatorBytes(body, bb.terminator);
    CodeAtSplit(m.functions[fr.func].code, pc, sb, tb);
    StatementsSim(m, s, below, fr, pc, locals, [], body, bb.statements);
    var n := StatementsSteps(bb.statements);
    var res := ExecStatements(body, bb.statements, locals);
    k := 1;
    if res.Ok? {
      k := TerminatorSim(m, V.Steps(m, s, n).state, below, fr, pc + |sb|, res.value, body, bb.terminator);
    }
    StepsCompose(m, s, n, k);
    k := n + k;
  }

  /** Whole runs: whatever MIR reaches after n blocks, the machine reaches, in at least as many steps. */
  lemma {:induction false} RunSim(m: V.Module, s: V.State, below: seq<V.Frame>, fr: V.Frame, locals: seq<i64>,
                                  body: Body, b: nat, n: nat) returns (k: nat)
    requires RunsCompiled(m, fr, body) && Callers(m, below) && b < |body.blocks|
    requires Here(s, below, fr, |CodeOf(body, b)|, locals, [])
    ensures EndsAs(m, V.Steps(m, s, k), below, fr, body, Run(body, At(b, locals), n))
    ensures Run(body, At(b, locals), n).At? ==> k >= n
    decreases n
  {
    hide V.Step, V.Steps, CodeOf, Here, ExecBlock;
    if n == 0 {
      k := 0;
      NoStep(m, s);
    } else {
      BlockAtOffset(body, b);
      var k1 := BlockSim(m, s, below, fr, locals, body, b);
      var out := ExecBlock(body, b, locals);
      k := k1;
      if out.At? {
        var k2 := RunSim(m, V.Steps(m, s, k1).state, below, fr, out.locals, body, out.block, n - 1);
        StepsCompose(m, s, k1, k2);
        k := k1 + k2;
      } else {
        assert Run(body, out, n - 1) == out;
      }
    }
  }

  // ----- the compiled program and its source give the same results -----

  /** The module made of one compiled body. */
  function Program(body: Body): V.Module
    requires ScalarBody(body)
  {
    V.Module([Compile(body)], 0)
  }

  function Zeros(n: nat): (r: seq<i64>)
    ensures |r| == n
  {
    seq(n, _ => 0)
  }

  predicate Final(o: Outcome) {
    !o.At?
  }

  /** The machine's result for a finished MIR run. */
  function ResultOf(o: Outcome): V.ExecResult
    requires Final(o)
  {
    match o
    case Returned(v) => Ok(V.Int(v))
    case Failed(e) => Err(VmErrorOf(e))
  }

  lemma StartsHere(body: Body)
    requires Compilable(body) && body.blocks != []
    ensures V.Start(Program(body)).Ok?
    ensures var s := V.Start(Program(body)).value;
            && s.frames != []
            && RunsCompiled(Program(body), s.frames[0], body)
            && Here(s, [], s.frames[0], |CodeOf(body, 0)|, Zeros(|body.locals|), [])
  {
    var m, f := Program(body), Compile(body);
    var fr := V.FreshFrame(f, 0, [], U32_MAX, USIZE_MAX);
    var none: seq<V.Frame> := [];
    assert none + [fr] == [fr];
    assert m.functions[0] == f;
    assert V.Start(m) == Ok(V.State([], [fr]));
    assert fr.locals == Ints(Zeros(|body.locals|));
  }

  lemma {:induction false} DoneIsFinal(m: V.Module, s: V.State, j: nat, k: nat)
    requires V.Steps(m, s, j).Done? && j <= k
    ensures V.Steps(m, s, k) == V.Steps(m, s, j)
  {
    hide V.Step, V.Steps;
    StepsCompose(m, s, j, k - j);
  }

  /** If the MIR program ends, the machine ends with its result. */
  lemma MirEndsMachineEnds(body: Body, n: nat) returns (k: nat)
    requires Compilable(body) && body.blocks != []
    requires Final(Run(body, At(0, Zeros(|body.locals|)), n))
    ensures V.Start(Program(body)).Ok?
    ensures V.Steps(Program(body), V.Start(Program(body)).value, k)
         == V.Done(ResultOf(Run(body, At(0, Zeros(|body.locals|)), n)))
  {
    hide V.Step, V.Steps, CodeOf, V.Start;
    StartsHere(body);
    var s := V.Start(Program(body)).value;
    k := RunSim(Program(body), s, [], s.frames[0], Zeros(|body.locals|), body, 0, n);
  }

  /** The machine, started on m, finishes with r. */
  ghost predicate MachineEnds(m: V.Module, r: V.ExecResult) {
    V.Start(m).Ok? && exists k: nat :: V.Steps(m, V.Start(m).value, k) == V.Done(r)
  }

  /** The MIR program, started in block 0 with zeroed locals, finishes with what r stands for. */
  ghost predicate MirEnds(body: Body, r: V.ExecResult)
    requires ScalarBody(body) && body.blocks != []
  {
    exists n: nat ::
      Final(Run(body, At(0, Zeros(|body.locals|)), n)) && ResultOf(Run(body, At(0, Zeros(|body.locals|)), n)) == r
  }

  /**
  Compiler correctness. On every compilable body the machine finishes with result r exactly when
  the MIR program does; so it also runs forever exactly when the MIR program does.
  */
  lemma CompilerCorrect(body: Body, r: V.ExecResult)
    requires Compilable(body) && body.blocks != []
    ensures MachineEnds(Program(body), r) <==> MirEnds(body, r)
  {
    hide V.Step, V.Steps, CodeOf, V.Start, Run, Here;
    StartsHere(body);
    var m, o := Program(body), At(0, Zeros(|body.locals|));
    var s := V.Start(m).value;
    if n: nat :| Final(Run(body, o, n)) && ResultOf(Run(body, o, n)) == r {
      var k := MirEndsMachineEnds(body, n);
      assert V.Steps(m, s, k) == V.Done(r);
    }
    if k: nat :| V.Steps(m, s, k) == V.Done(r) {
      var j := RunSim(m, s, [], s.frames[0], Zeros(|body.locals|), body, 0, k);
      if Run(body, o, k).At? {
        DoneIsFinal(m, s, k, j);
        assert false;
      }
      if j <= k {
        DoneIsFinal(m, s, j, k);
      } else {
        DoneIsFinal(m, s, k, j);
      }
      assert Final(Run(body, o, k)) && ResultOf(Run(body, o, k)) == r;
    }
  }
}
