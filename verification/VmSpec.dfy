/**
The bytecode machine as a step function (crates/glyim-bytecode-vm/src/lib.rs).
`Step` is one turn of the driver loop; class `Machine.Vm` runs it in place.
*/
module VmSpec {
  import opened Int64
  import opened Wire
  import opened Wrappers

  datatype Value = Int(v: i64) | Tuple(elems: seq<Value>)

  function AsInt(v: Value): i64 {
    if v.Int? then v.v else 0
  }

  datatype Opcode =
    | LoadConst | Add | Sub | Mul | Div | Rem | Eq | Ne | Lt | Gt | Le | Ge | And | Or | Not | Neg
    | BitAnd | BitOr | BitXor | Shl | Shr | LoadLocal | StoreLocal | Return | JumpIf | Jump | Call
    | Cast | Aggregate | Discriminant | Len | SwitchInt | Assert | CallIndirect | LoadLocalAddr
    | StoreField | Deref | Drop | Repeat | Trap

  function FromByte(b: u8): Option<Opcode> {
    match b
    case 0x01 => Some(LoadConst)
    case 0x02 => Some(Add)
    case 0x03 => Some(Sub)
    case 0x04 => Some(Mul)
    case 0x05 => Some(Div)
    case 0x06 => Some(Rem)
    case 0x07 => Some(Eq)
    case 0x08 => Some(Ne)
    case 0x09 => Some(Lt)
    case 0x0A => Some(Gt)
    case 0x0B => Some(Le)
    case 0x0C => Some(Ge)
    case 0x0D => Some(And)
    case 0x0E => Some(Or)
    case 0x0F => Some(Not)
    case 0x10 => Some(Neg)
    case 0x11 => Some(BitAnd)
    case 0x12 => Some(BitOr)
    case 0x13 => Some(BitXor)
    case 0x14 => Some(Shl)
    case 0x15 => Some(Shr)
    case 0x16 => Some(LoadLocal)
    case 0x17 => Some(StoreLocal)
    case 0x18 => Some(Return)
    case 0x19 => Some(JumpIf)
    case 0x1A => Some(Jump)
    case 0x1B => Some(Call)
    case 0x1C => Some(Cast)
    case 0x1D => Some(Aggregate)
    case 0x1E => Some(Discriminant)
    case 0x1F => Some(Len)
    case 0x20 => Some(SwitchInt)
    case 0x21 => Some(Assert)
    case 0x22 => Some(CallIndirect)
    case 0x29 => Some(LoadLocalAddr)
    case 0x2A => Some(StoreField)
    case 0x2B => Some(Deref)
    case 0x2C => Some(Drop)
    case 0x2D => Some(Repeat)
    case 0xFF => Some(Trap)
    case _ => None
  }

  predicate IsBinary(op: Opcode) {
    || op.Add? || op.Sub? || op.Mul? || op.Div? || op.Rem? || op.Eq? || op.Ne? || op.Lt? || op.Gt?
    || op.Le? || op.Ge? || op.And? || op.Or? || op.BitAnd? || op.BitOr? || op.BitXor? || op.Shl? || op.Shr?
  }

  datatype Function = Function(code: Bytes, nLocals: nat, argCount: nat, blockOffsets: seq<nat>)

  /** Block-index mode when the table is non-empty, raw byte offset otherwise. */
  function ResolveTarget(f: Function, target: u32): nat {
    if f.blockOffsets != [] then
      if target < |f.blockOffsets| then f.blockOffsets[target] else USIZE_MAX
    else target
  }

  datatype Module = Module(functions: seq<Function>, entry: nat)

  /** `HostPanic` is not a VM error: it marks the inputs on which the Rust code itself panics. */
  datatype VmError =
    | UnexpectedEndOfCode
    | UnknownOpcode(byte: u8)
    | StackUnderflow
    | LocalOutOfBounds(index: nat)
    | EmptyReturn
    | AbnormalTermination
    | AssertionFailed
    | CallFrameOverflow
    | FunctionOutOfBounds(func: nat)
    | HostPanic

  const MAX_CALL_DEPTH := 1024

  datatype Frame = Frame(
    locals: seq<Value>,
    mem: seq<Value>,
    func: nat,
    pc: nat,
    resumeTarget: u32,
    destLocal: nat)

  datatype State = State(stack: seq<Value>, frames: seq<Frame>)

  type ExecResult = Result<Value, VmError>

  datatype StepResult = Next(state: State) | Done(result: ExecResult)

  function Stop(e: VmError): StepResult {
    Done(Err(e))
  }

  function Top(s: State): Frame
    requires s.frames != []
  {
    s.frames[|s.frames| - 1]
  }

  function WithTop(s: State, fr: Frame): State
    requires s.frames != []
  {
    s.(frames := s.frames[|s.frames| - 1 := fr])
  }

  function WithPc(s: State, pc: nat): State
    requires s.frames != []
  {
    WithTop(s, Top(s).(pc := pc))
  }

  function Push(s: State, v: Value): State {
    s.(stack := s.stack + [v])
  }

  /** Drop the n topmost operands. */
  function Pop(s: State, n: nat): State
    requires n <= |s.stack|
  {
    s.(stack := s.stack[..|s.stack| - n])
  }

  /** The operand k places below the top. */
  function Peek(s: State, k: nat): Value
    requires k < |s.stack|
  {
    s.stack[|s.stack| - 1 - k]
  }

  lemma PopTwice(s: State, n: nat)
    requires n < |s.stack|
    ensures Peek(Pop(s, n), 0) == Peek(s, n) && Pop(Pop(s, n), 1) == Pop(s, n + 1)
  {
  }

  lemma PopTwiceLaws(s: State)
    ensures |s.stack| >= 1 ==> |Pop(s, 1).stack| == |s.stack| - 1
    ensures |s.stack| >= 2 ==> Peek(Pop(s, 1), 0) == Peek(s, 1) && Pop(Pop(s, 1), 1) == Pop(s, 2)
    ensures forall n: nat {:trigger Pop(s, n)} :: n <= |s.stack| ==> Pop(s, n).frames == s.frames
  {
  }

  /** Moving the pc again. */
  lemma PcLaws(s: State, a: nat)
    requires s.frames != []
    ensures WithPc(s, a).frames != [] && Top(WithPc(s, a)) == Top(s).(pc := a) && WithPc(s, a).stack == s.stack
    ensures forall b: nat {:trigger WithPc(WithPc(s, a), b)} :: WithPc(WithPc(s, a), b) == WithPc(s, b)
  {
  }

  function FetchU32(code: Bytes, pc: nat): Option<u32> {
    if pc + 4 <= |code| then Some(ReadU32(code[pc..pc + 4])) else None
  }

  function FetchI64(code: Bytes, pc: nat): Option<i64> {
    if pc + 8 <= |code| then Some(ReadI64(code[pc..pc + 8])) else None
  }

  function Binop(op: Opcode, a: i64, b: i64): Option<i64>
    requires IsBinary(op)
  {
    match op
    case Add => Some(Wrap(a + b))
    case Sub => Some(Wrap(a - b))
    case Mul => Some(Wrap(a * b))
    case Div => CheckedDiv(a, b)
    case Rem => CheckedRem(a, b)
    case Eq => Some(Bool(a == b))
    case Ne => Some(Bool(a != b))
    case Lt => Some(Bool(a < b))
    case Gt => Some(Bool(a > b))
    case Le => Some(Bool(a <= b))
    case Ge => Some(Bool(a >= b))
    case And => Some(Bool(a != 0 && b != 0))
    case Or => Some(Bool(a != 0 || b != 0))
    case BitAnd => Some(Bitwise(AndBits, a, b))
    case BitOr => Some(Bitwise(OrBits, a, b))
    case BitXor => Some(Bitwise(XorBits, a, b))
    case Shl => Some(Int64.Shl(a, b))
    case Shr => Some(Int64.Shr(a, b))
  }

  function Unop(op: Opcode, a: i64): i64
    requires op.Not? || op.Neg?
  {
    if op.Not? then Bool(a == 0) else Wrap(0 - a)
  }

  /** Memory with the elements of a tuple copied from slot `at` on, as far as it reaches. */
  function Mirror(mem: seq<Value>, at: nat, elems: seq<Value>): (r: seq<Value>)
    ensures |r| == |mem|
  {
    seq(|mem|, i requires 0 <= i < |mem| => if at <= i < at + |elems| then elems[i - at] else mem[i])
  }

  /** Writing a local also writes its image in addressable memory. */
  function SetLocal(fr: Frame, i: nat, v: Value): Frame
    requires i < |fr.locals|
  {
    var mem :=
      if i < |fr.mem| then Mirror(fr.mem[i := v], i + 1, if v.Tuple? then v.elems else []) else fr.mem;
    fr.(locals := fr.locals[i := v], mem := mem)
  }

  function FreshFrame(f: Function, func: nat, args: seq<Value>, resume: u32, dest: nat): Frame {
    var n := if f.nLocals < |args| then |args| else f.nLocals;
    var locals := seq(n, i requires 0 <= i < n => if i < |args| then args[i] else Int(0));
    Frame(locals, seq(if n == 0 then 8 else 8 * n, _ => Int(0)), func, 0, resume, dest)
  }

  function PushFrame(m: Module, s: State, func: nat, args: seq<Value>, resume: u32, dest: nat): Result<State, VmError> {
    if |s.frames| >= MAX_CALL_DEPTH then Err(CallFrameOverflow)
    else if func >= |m.functions| then Err(FunctionOutOfBounds(func))
    else Ok(s.(frames := s.frames + [FreshFrame(m.functions[func], func, args, resume, dest)]))
  }

  // ----- one instruction; the pc of the top frame already stands after the opcode -----

  predicate Ready(m: Module, s: State) {
    s.frames != [] && Top(s).func < |m.functions|
  }

  function Fn(m: Module, s: State): Function
    requires Ready(m, s)
  {
    m.functions[Top(s).func]
  }

  /** Instructions that move values between the operand stack, locals and memory. */
  function ExecData(m: Module, s: State, op: Opcode): StepResult
    requires Ready(m, s)
    requires op.LoadConst? || op.LoadLocal? || op.StoreLocal? || op.LoadLocalAddr? || op.StoreField? || op.Deref?
             || op.Drop?
  {
    var code, pc := Fn(m, s).code, Top(s).pc;
    match op
    case LoadConst =>
      (match FetchI64(code, pc)
       case None => Stop(UnexpectedEndOfCode)
       case Some(v) => Next(Push(WithPc(s, pc + 8), Int(v))))
    case LoadLocal =>
      (match FetchU32(code, pc)
       case None => Stop(UnexpectedEndOfCode)
       case Some(i) =>
         if i < |Top(s).locals| then Next(Push(WithPc(s, pc + 4), Top(s).locals[i]))
         else Stop(LocalOutOfBounds(i)))
    case StoreLocal =>
      (match FetchU32(code, pc)
       case None => Stop(UnexpectedEndOfCode)
       case Some(i) =>
         if s.stack == [] then Stop(StackUnderflow)
         else if i >= |Top(s).locals| then Stop(LocalOutOfBounds(i))
         else Next(Pop(WithTop(s, SetLocal(Top(s).(pc := pc + 4), i, Peek(s, 0))), 1)))
    case LoadLocalAddr =>
      (match FetchU32(code, pc)
       case None => Stop(UnexpectedEndOfCode)
       case Some(i) => Next(Push(WithPc(s, pc + 4), Int(i))))
    case StoreField =>
      if |s.stack| < 2 then Stop(StackUnderflow)
      else
        var addr := AsUsize(AsInt(Peek(s, 0)));
        if addr >= |Top(s).mem| then Stop(LocalOutOfBounds(addr))
        else Next(Pop(WithTop(s, Top(s).(mem := Top(s).mem[addr := Peek(s, 1)])), 2))
    case Deref =>
      if s.stack == [] then Stop(StackUnderflow)
      else
        var addr := AsUsize(AsInt(Peek(s, 0)));
        if addr >= |Top(s).mem| then Stop(LocalOutOfBounds(addr))
        else Next(Push(Pop(s, 1), Top(s).mem[addr]))
    case Drop =>
      if s.stack == [] then Stop(StackUnderflow) else Next(Pop(s, 1))
  }

  /** Arithmetic, casts and aggregates. */
  function ExecValue(m: Module, s: State, op: Opcode): StepResult
    requires Ready(m, s)
    requires IsBinary(op) || op.Not? || op.Neg? || op.Cast? || op.Len? || op.Discriminant? || op.Aggregate?
             || op.Repeat?
  {
    var code, pc := Fn(m, s).code, Top(s).pc;
    match op
    case Not => if s.stack == [] then Stop(StackUnderflow) else Next(Push(Pop(s, 1), Int(Unop(op, AsInt(Peek(s, 0))))))
    case Neg => if s.stack == [] then Stop(StackUnderflow) else Next(Push(Pop(s, 1), Int(Unop(op, AsInt(Peek(s, 0))))))
    case Cast => if pc >= |code| then Stop(HostPanic) else Next(WithPc(s, pc + 1))
    case Len =>
      (match FetchU32(code, pc)
       case None => Stop(UnexpectedEndOfCode)
       case Some(i) =>
         if i >= |Top(s).locals| then Stop(LocalOutOfBounds(i))
         else
           var v := Top(s).locals[i];
           Next(Push(WithPc(s, pc + 4), Int(if v.Tuple? then Wrap(|v.elems|) else 0))))
    case Discriminant =>
      if s.stack == [] then Stop(StackUnderflow)
      else
        var v := Peek(s, 0);
        Next(Push(Pop(s, 1), Int(if v.Tuple? then Wrap(|v.elems|) else 0)))
    case Aggregate =>
      (match FetchU32(code, pc)
       case None => Stop(UnexpectedEndOfCode)
       case Some(n) =>
         if |s.stack| < n then Stop(StackUnderflow)
         else Next(Push(Pop(WithPc(s, pc + 4), n), Tuple(s.stack[|s.stack| - n..]))))
    case Repeat =>
      if |s.stack| < 2 then Stop(StackUnderflow)
      else
        var count := AsInt(Peek(s, 0));
        var value := Peek(s, 1);
        Next(Push(Pop(s, 2), Tuple(seq(if count < 0 then 0 else count, _ => value))))
    case _ => ExecBinary(s, op)
  }

  function ExecBinary(s: State, op: Opcode): StepResult
    requires IsBinary(op)
  {
    if |s.stack| < 2 then Stop(StackUnderflow)
    else
      match Binop(op, AsInt(Peek(s, 1)), AsInt(Peek(s, 0)))
      case None => Stop(AbnormalTermination)
      case Some(r) => Next(Push(Pop(s, 2), Int(r)))
  }

  /** The arms of a switch: the last arm with the wanted value wins. */
  function SwitchScan(code: Bytes, pc: nat, count: nat, discr: i64, taken: Option<u32>): Option<(nat, Option<u32>)>
    decreases count
  {
    if count == 0 then Some((pc, taken))
    else
      match FetchI64(code, pc)
      case None => None
      case Some(v) =>
        match FetchU32(code, pc + 8)
        case None => None
        case Some(t) => SwitchScan(code, pc + 12, count - 1, discr, if v == discr then Some(t) else taken)
  }

  function ExecJump(m: Module, s: State, op: Opcode): StepResult
    requires Ready(m, s)
    requires op.Jump? || op.JumpIf? || op.SwitchInt? || op.Assert? || op.Trap?
  {
    var f, code, pc := Fn(m, s), Fn(m, s).code, Top(s).pc;
    match op
    case Jump =>
      (match FetchU32(code, pc)
       case None => Stop(UnexpectedEndOfCode)
       case Some(t) => Next(WithPc(s, ResolveTarget(f, t))))
    case JumpIf =>
      (match FetchU32(code, pc)
       case None => Stop(UnexpectedEndOfCode)
       case Some(t) =>
         if s.stack == [] then Stop(StackUnderflow)
         else Next(Pop(WithPc(s, if AsInt(Peek(s, 0)) != 0 then ResolveTarget(f, t) else pc + 4), 1)))
    case SwitchInt =>
      if s.stack == [] then Stop(StackUnderflow)
      else
        (match FetchU32(code, pc)
         case None => Stop(UnexpectedEndOfCode)
         case Some(count) =>
           match SwitchScan(code, pc + 4, count, AsInt(Peek(s, 0)), None)
           case None => Stop(UnexpectedEndOfCode)
           case Some((end, taken)) =>
             match FetchU32(code, end)
             case None => Stop(UnexpectedEndOfCode)
             case Some(otherwise) =>
               Next(Pop(WithPc(s, ResolveTarget(f, if taken.Some? then taken.value else otherwise)), 1)))
    case Assert =>
      if pc >= |code| then Stop(HostPanic)
      else
        (match FetchU32(code, pc + 1)
         case None => Stop(UnexpectedEndOfCode)
         case Some(t) =>
           if s.stack == [] then Stop(StackUnderflow)
           else if (AsInt(Peek(s, 0)) != 0) != (code[pc] != 0) then Stop(AssertionFailed)
           else Next(Pop(WithPc(s, ResolveTarget(f, t)), 1)))
    case Trap => Stop(AbnormalTermination)
  }

  function ExecReturn(m: Module, s: State): StepResult
    requires Ready(m, s)
  {
    var retval := if s.stack == [] then Int(0) else Peek(s, 0);
    var stack := if s.stack == [] then [] else s.stack[..|s.stack| - 1];
    var rest := s.frames[..|s.frames| - 1];
    if rest == [] then Done(Ok(retval))
    else
      var caller := rest[|rest| - 1];
      if caller.func >= |m.functions| then Stop(HostPanic)
      else
        var dest := Top(s).destLocal;
        var resume := ResolveTarget(m.functions[caller.func], Top(s).resumeTarget);
        var locals := if dest < |caller.locals| then caller.locals[dest := retval] else caller.locals;
        Next(State(stack, rest[|rest| - 1 := caller.(locals := locals, pc := resume)]))
  }

  function ExecCall(m: Module, s: State): StepResult
    requires Ready(m, s)
  {
    var code, pc := Fn(m, s).code, Top(s).pc;
    match FetchU32(code, pc)
    case None => Stop(UnexpectedEndOfCode)
    case Some(argc) =>
      match FetchU32(code, pc + 4)
      case None => Stop(UnexpectedEndOfCode)
      case Some(dest) =>
        match FetchU32(code, pc + 8)
        case None => Stop(UnexpectedEndOfCode)
        case Some(target) =>
          if |s.stack| < argc + 1 then Stop(StackUnderflow)
          else
            var args := s.stack[|s.stack| - argc..];
            var callee := AsUsize(AsInt(Peek(s, argc)));
            match PushFrame(m, Pop(WithPc(s, pc + 12), argc + 1), callee, args, target, dest)
            case Err(e) => Stop(e)
            case Ok(s') => Next(s')
  }

  function Exec(m: Module, s: State, op: Opcode): StepResult
    requires Ready(m, s)
  {
    match op
    case LoadConst => ExecData(m, s, op)
    case LoadLocal => ExecData(m, s, op)
    case StoreLocal => ExecData(m, s, op)
    case LoadLocalAddr => ExecData(m, s, op)
    case StoreField => ExecData(m, s, op)
    case Deref => ExecData(m, s, op)
    case Drop => ExecData(m, s, op)
    case Jump => ExecJump(m, s, op)
    case JumpIf => ExecJump(m, s, op)
    case SwitchInt => ExecJump(m, s, op)
    case Assert => ExecJump(m, s, op)
    case Trap => ExecJump(m, s, op)
    case Return => ExecReturn(m, s)
    case Call => ExecCall(m, s)
    case CallIndirect => ExecCall(m, s)
    case _ => ExecValue(m, s, op)
  }

  lemma BinaryExec(m: Module, s: State, op: Opcode)
    requires Ready(m, s) && IsBinary(op)
    ensures Exec(m, s, op) == ExecBinary(s, op)
  {
    hide ExecBinary;
  }

  /** One turn of the driver loop. */
  function Step(m: Module, s: State): StepResult {
    if s.frames == [] then
      if s.stack == [] then Stop(EmptyReturn) else Done(Ok(Peek(s, 0)))
    else if Top(s).func >= |m.functions| then Stop(HostPanic)
    else
      var code, pc := m.functions[Top(s).func].code, Top(s).pc;
      if pc >= |code| then Stop(UnexpectedEndOfCode)
      else
        match FromByte(code[pc])
        case None => Stop(UnknownOpcode(code[pc]))
        case Some(op) => Exec(m, WithPc(s, pc + 1), op)
  }

  /** At most k turns. */
  function Steps(m: Module, s: State, k: nat): StepResult
    decreases k
  {
    if k == 0 then Next(s)
    else
      match Step(m, s)
      case Next(s') => Steps(m, s', k - 1)
      case Done(r) => Done(r)
  }

  function Start(m: Module): Result<State, VmError> {
    if m.functions == [] then Err(FunctionOutOfBounds(0))
    else PushFrame(m, State([], []), m.entry, [], U32_MAX, USIZE_MAX)
  }
}
