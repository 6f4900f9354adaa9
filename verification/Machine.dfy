/** The virtual machine itself: operand stack and call frames updated in place. */
module Machine {
  import opened Int64
  import opened Wire
  import opened Wrappers
  import opened VmSpec

  class Vm {
    var stack: seq<Value>
    var frames: seq<Frame>

    ghost function Contents(): State
      reads this
    {
      State(stack, frames)
    }

    constructor ()
      ensures Contents() == State([], [])
    {
      stack, frames := [], [];
    }

    method PopValue() returns (r: Result<Value, VmError>)
      modifies this`stack
      ensures old(stack) == [] ==> r == Err(StackUnderflow) && stack == old(stack)
      ensures old(stack) != [] ==> r == Ok(Peek(old(Contents()), 0)) && Contents() == Pop(old(Contents()), 1)
    {
      if stack == [] {
        return Err(StackUnderflow);
      }
      r := Ok(stack[|stack| - 1]);
      stack := stack[..|stack| - 1];
    }

    method NextU32(code: Bytes) returns (r: Result<u32, VmError>)
      requires frames != []
      modifies this`frames
      ensures match FetchU32(code, Top(old(Contents())).pc)
              case None => r == Err(UnexpectedEndOfCode) && Contents() == old(Contents())
              case Some(v) => r == Ok(v) && Contents() == WithPc(old(Contents()), Top(old(Contents())).pc + 4)
    {
      var last := |frames| - 1;
      var pc := frames[last].pc;
      if pc + 4 > |code| {
        return Err(UnexpectedEndOfCode);
      }
      frames := frames[last := frames[last].(pc := pc + 4)];
      r := Ok(ReadU32(code[pc..pc + 4]));
    }

    method NextI64(code: Bytes) returns (r: Result<i64, VmError>)
      requires frames != []
      modifies this`frames
      ensures match FetchI64(code, Top(old(Contents())).pc)
              case None => r == Err(UnexpectedEndOfCode) && Contents() == old(Contents())
              case Some(v) => r == Ok(v) && Contents() == WithPc(old(Contents()), Top(old(Contents())).pc + 8)
    {
      var last := |frames| - 1;
      var pc := frames[last].pc;
      if pc + 8 > |code| {
        return Err(UnexpectedEndOfCode);
      }
      frames := frames[last := frames[last].(pc := pc + 8)];
      r := Ok(ReadI64(code[pc..pc + 8]));
    }

    method JumpTo(pc: nat)
      requires frames != []
      modifies this`frames
      ensures Contents() == WithPc(old(Contents()), pc)
    {
      var last := |frames| - 1;
      frames := frames[last := frames[last].(pc := pc)];
    }

    /** Write a local and its image in memory, the tuple elements slot by slot. */
    method StoreLocalSlot(i: nat, v: Value) returns (r: Result<(), VmError>)
      requires frames != []
      modifies this`frames
      ensures old(i < |Top(Contents()).locals|) ==>
                r == Ok(()) && Contents() == WithTop(old(Contents()), SetLocal(Top(old(Contents())), i, v))
      ensures old(i >= |Top(Contents()).locals|) ==> r == Err(LocalOutOfBounds(i)) && Contents() == old(Contents())
    {
      var last := |frames| - 1;
      var fr := frames[last];
      if i >= |fr.locals| {
        return Err(LocalOutOfBounds(i));
      }
      var mem := fr.mem;
      if i < |mem| {
        mem := mem[i := v];
        if v.Tuple? {
          ghost var base := mem;
          for k := 0 to |v.elems|
            invariant |mem| == |fr.mem|
            invariant mem == Mirror(base, i + 1, v.elems[..k])
          {
            if i + 1 + k < |mem| {
              mem := mem[i + 1 + k := v.elems[k]];
            }
          }
          assert v.elems[..|v.elems|] == v.elems;
        } else {
          assert mem == Mirror(mem, i + 1, []);
        }
      }
      frames := frames[last := fr.(locals := fr.locals[i := v], mem := mem)];
      r := Ok(());
    }

    method Enter(m: Module, func: nat, args: seq<Value>, resume: u32, dest: nat) returns (r: Result<(), VmError>)
      modifies this`frames
      ensures match PushFrame(m, old(Contents()), func, args, resume, dest)
              case Err(e) => r == Err(e) && Contents() == old(Contents())
              case Ok(s) => r == Ok(()) && Contents() == s
    {
      if |frames| >= MAX_CALL_DEPTH {
        return Err(CallFrameOverflow);
      }
      if func >= |m.functions| {
        return Err(FunctionOutOfBounds(func));
      }
      var n := if m.functions[func].nLocals < |args| then |args| else m.functions[func].nLocals;
      var locals := seq(n, _ => Int(0));
      for i := 0 to |args|
        invariant |locals| == n
        invariant forall j :: 0 <= j < n ==> locals[j] == if j < i then args[j] else Int(0)
      {
        locals := locals[i := args[i]];
      }
      assert locals == FreshFrame(m.functions[func], func, args, resume, dest).locals;
      frames := frames + [Frame(locals, seq(if n == 0 then 8 else 8 * n, _ => Int(0)), func, 0, resume, dest)];
      r := Ok(());
    }

    /** Pop n operands, the topmost last. */
    method PopMany(n: nat) returns (r: Result<seq<Value>, VmError>)
      modifies this`stack
      ensures |old(stack)| < n ==> r == Err(StackUnderflow)
      ensures |old(stack)| >= n ==> r == Ok(old(stack)[|old(stack)| - n..]) && Contents() == Pop(old(Contents()), n)
    {
      var elems: seq<Value> := [];
      for i := 0 to n
        invariant i <= |old(stack)|
        invariant stack == old(stack)[..|old(stack)| - i]
        invariant elems == old(stack)[|old(stack)| - i..]
      {
        var v := PopValue();
        if v.Err? {
          return Err(StackUnderflow);
        }
        elems := [v.value] + elems;
      }
      r := Ok(elems);
    }

    /** What an arm of the driver loop leaves behind: the next state, or the run's result. */
    ghost predicate Did(r: StepResult, out: Option<ExecResult>)
      reads this
    {
      match r
      case Next(s) => out == None && Contents() == s
      case Done(x) => out == Some(x)
    }

    method DoData(m: Module, op: Opcode) returns (out: Option<ExecResult>)
      requires Ready(m, Contents())
      requires op.LoadConst? || op.LoadLocal? || op.StoreLocal? || op.LoadLocalAddr? || op.StoreField? || op.Deref?
               || op.Drop?
      modifies this
      ensures Did(ExecData(m, old(Contents()), op), out)
    {
      hide Mirror;
      var last := |frames| - 1;
      var code := m.functions[frames[last].func].code;
      match op {
        case LoadConst =>
          var v := NextI64(code);
          if v.Err? { return Some(Err(v.error)); }
          stack := stack + [Int(v.value)];
        case LoadLocal =>
          var i := NextU32(code);
          if i.Err? { return Some(Err(i.error)); }
          if i.value >= |frames[last].locals| { return Some(Err(LocalOutOfBounds(i.value))); }
          stack := stack + [frames[last].locals[i.value]];
        case StoreLocal =>
          var i := NextU32(code);
          if i.Err? { return Some(Err(i.error)); }
          var v := PopValue();
          if v.Err? { return Some(Err(v.error)); }
          var done := StoreLocalSlot(i.value, v.value);
          if done.Err? { return Some(Err(done.error)); }
        case LoadLocalAddr =>
          var i := NextU32(code);
          if i.Err? { return Some(Err(i.error)); }
          stack := stack + [Int(i.value)];
        case StoreField =>
          var a := PopValue();
          if a.Err? { return Some(Err(a.error)); }
          var v := PopValue();
          if v.Err? { return Some(Err(v.error)); }
          var addr := AsUsize(AsInt(a.value));
          var fr := frames[last];
          if addr >= |fr.mem| { return Some(Err(LocalOutOfBounds(addr))); }
          frames := frames[last := fr.(mem := fr.mem[addr := v.value])];
        case Deref =>
          var a := PopValue();
          if a.Err? { return Some(Err(a.error)); }
          var addr := AsUsize(AsInt(a.value));
          if addr >= |frames[last].mem| { return Some(Err(LocalOutOfBounds(addr))); }
          stack := stack + [frames[last].mem[addr]];
        case Drop =>
          var a := PopValue();
          if a.Err? { return Some(Err(a.error)); }
      }
      out := None;
    }

    static method Copies(count: i64, v: Value) returns (elems: seq<Value>)
      ensures elems == seq(if count < 0 then 0 else count, _ => v)
    {
      elems := [];
      for i := 0 to if count < 0 then 0 else count
        invariant elems == seq(i, _ => v)
      {
        elems := elems + [v];
      }
    }

    method DoMeasure(m: Module, op: Opcode) returns (out: Option<ExecResult>)
      requires Ready(m, Contents())
      requires op.Len? || op.Discriminant?
      modifies this
      ensures Did(ExecValue(m, old(Contents()), op), out)
    {
      hide ExecBinary, Unop;
      var last := |frames| - 1;
      var code := m.functions[frames[last].func].code;
      match op {
        case Len =>
          var i := NextU32(code);
          if i.Err? { return Some(Err(i.error)); }
          if i.value >= |frames[last].locals| { return Some(Err(LocalOutOfBounds(i.value))); }
          var v := frames[last].locals[i.value];
          stack := stack + [Int(if v.Tuple? then Wrap(|v.elems|) else 0)];
        case Discriminant =>
          var v := PopValue();
          if v.Err? { return Some(Err(v.error)); }
          stack := stack + [Int(if v.value.Tuple? then Wrap(|v.value.elems|) else 0)];
      }
      out := None;
    }

    method DoTuple(m: Module, op: Opcode) returns (out: Option<ExecResult>)
      requires Ready(m, Contents())
      requires op.Aggregate? || op.Repeat?
      modifies this
      ensures Did(ExecValue(m, old(Contents()), op), out)
    {
      hide ExecBinary, Unop;
      var last := |frames| - 1;
      var code := m.functions[frames[last].func].code;
      match op {
        case Aggregate =>
          var n := NextU32(code);
          if n.Err? { return Some(Err(n.error)); }
          var elems := PopMany(n.value);
          if elems.Err? { return Some(Err(elems.error)); }
          stack := stack + [Tuple(elems.value)];
        case Repeat =>
          var c := PopValue();
          if c.Err? { return Some(Err(c.error)); }
          var v := PopValue();
          if v.Err? { return Some(Err(v.error)); }
          var elems := Copies(AsInt(c.value), v.value);
          stack := stack + [Tuple(elems)];
      }
      out := None;
    }

    method DoValue(m: Module, op: Opcode) returns (out: Option<ExecResult>)
      requires Ready(m, Contents())
      requires IsBinary(op) || op.Not? || op.Neg? || op.Cast? || op.Len? || op.Discriminant? || op.Aggregate?
               || op.Repeat?
      modifies this
      ensures Did(ExecValue(m, old(Contents()), op), out)
    {
      hide ExecBinary, Unop;
      if IsBinary(op) {
        out := DoBinary(op);
        return;
      }
      var last := |frames| - 1;
      var code := m.functions[frames[last].func].code;
      match op {
        case Not | Neg =>
          var a := PopValue();
          if a.Err? { return Some(Err(a.error)); }
          stack := stack + [Int(Unop(op, AsInt(a.value)))];
        case Cast =>
          var pc := frames[last].pc;
          if pc >= |code| { return Some(Err(HostPanic)); }
          JumpTo(pc + 1);
        case Len | Discriminant =>
          out := DoMeasure(m, op);
          return;
        case Aggregate | Repeat =>
          out := DoTuple(m, op);
          return;
      }
      out := None;
    }

    method DoBinary(op: Opcode) returns (out: Option<ExecResult>)
      requires IsBinary(op)
      modifies this
      ensures Did(ExecBinary(old(Contents()), op), out)
    {
      hide Binop, Pop, Peek;
      ghost var s := Contents();
      PopTwiceLaws(s);
      var b := PopValue();
      if b.Err? { return Some(Err(b.error)); }
      var a := PopValue();
      if a.Err? { return Some(Err(a.error)); }
      var r := Binop(op, AsInt(a.value), AsInt(b.value));
      if r.None? { return Some(Err(AbnormalTermination)); }
      stack := stack + [Int(r.value)];
      out := None;
    }

    method ScanArms(code: Bytes, count: nat, discr: i64) returns (r: Result<Option<u32>, VmError>)
      requires frames != []
      modifies this`frames
      ensures match SwitchScan(code, Top(old(Contents())).pc, count, discr, None)
              case None => r == Err(UnexpectedEndOfCode)
              case Some((end, taken)) => r == Ok(taken) && Contents() == WithPc(old(Contents()), end)
    {
      var taken: Option<u32> := None;
      ghost var s0 := Contents();
      assert Contents() == WithPc(s0, Top(s0).pc);
      for k := 0 to count
        invariant frames != [] && Contents() == WithPc(s0, Top(Contents()).pc)
        invariant SwitchScan(code, Top(s0).pc, count, discr, None)
               == SwitchScan(code, Top(Contents()).pc, count - k, discr, taken)
      {
        var v := NextI64(code);
        if v.Err? { return Err(v.error); }
        var t := NextU32(code);
        if t.Err? { return Err(t.error); }
        if v.value == discr {
          taken := Some(t.value);
        }
      }
      r := Ok(taken);
    }

    method DoSwitch(m: Module) returns (out: Option<ExecResult>)
      requires Ready(m, Contents())
      modifies this
      ensures Did(ExecJump(m, old(Contents()), SwitchInt), out)
    {
      hide SwitchScan, ResolveTarget;
      var f := m.functions[frames[|frames| - 1].func];
      var d := PopValue();
      if d.Err? { return Some(Err(d.error)); }
      var count := NextU32(f.code);
      if count.Err? { return Some(Err(count.error)); }
      var taken := ScanArms(f.code, count.value, AsInt(d.value));
      if taken.Err? { return Some(Err(taken.error)); }
      var otherwise := NextU32(f.code);
      if otherwise.Err? { return Some(Err(otherwise.error)); }
      JumpTo(ResolveTarget(f, if taken.value.Some? then taken.value.value else otherwise.value));
      out := None;
    }

    method DoJump(m: Module, op: Opcode) returns (out: Option<ExecResult>)
      requires Ready(m, Contents())
      requires op.Jump? || op.JumpIf? || op.SwitchInt? || op.Assert? || op.Trap?
      modifies this
      ensures Did(ExecJump(m, old(Contents()), op), out)
    {
      hide SwitchScan, ResolveTarget;
      if op.SwitchInt? {
        out := DoSwitch(m);
        return;
      }
      var last := |frames| - 1;
      var f := m.functions[frames[last].func];
      match op {
        case Jump =>
          var t := NextU32(f.code);
          if t.Err? { return Some(Err(t.error)); }
          JumpTo(ResolveTarget(f, t.value));
        case JumpIf =>
          var t := NextU32(f.code);
          if t.Err? { return Some(Err(t.error)); }
          var c := PopValue();
          if c.Err? { return Some(Err(c.error)); }
          if AsInt(c.value) != 0 {
            JumpTo(ResolveTarget(f, t.value));
          }
        case Assert =>
          var pc := frames[last].pc;
          if pc >= |f.code| { return Some(Err(HostPanic)); }
          JumpTo(pc + 1);
          var t := NextU32(f.code);
          if t.Err? { return Some(Err(t.error)); }
          var c := PopValue();
          if c.Err? { return Some(Err(c.error)); }
          if (AsInt(c.value) != 0) != (f.code[pc] != 0) { return Some(Err(AssertionFailed)); }
          JumpTo(ResolveTarget(f, t.value));
        case Trap =>
          return Some(Err(AbnormalTermination));
      }
      out := None;
    }

    method DoReturn(m: Module) returns (out: Option<ExecResult>)
      requires Ready(m, Contents())
      modifies this
      ensures Did(ExecReturn(m, old(Contents())), out)
    {
      hide ResolveTarget;
      var v := PopValue();
      var retval := if v.Ok? then v.value else Int(0);
      var finished := frames[|frames| - 1];
      frames := frames[..|frames| - 1];
      if frames == [] {
        return Some(Ok(retval));
      }
      var last := |frames| - 1;
      var caller := frames[last];
      if caller.func >= |m.functions| { return Some(Err(HostPanic)); }
      var resume := ResolveTarget(m.functions[caller.func], finished.resumeTarget);
      if finished.destLocal < |caller.locals| {
        caller := caller.(locals := caller.locals[finished.destLocal := retval]);
      }
      frames := frames[last := caller.(pc := resume)];
      out := None;
    }

    /** The three operands of a call: argument count, destination slot, resume block. */
    method CallOperands(code: Bytes) returns (r: Result<(u32, u32, u32), VmError>)
      requires frames != []
      modifies this`frames
      ensures var pc := old(Top(Contents())).pc;
              match r
              case Err(e) => e == UnexpectedEndOfCode
                && (FetchU32(code, pc).None? || FetchU32(code, pc + 4).None? || FetchU32(code, pc + 8).None?)
              case Ok((argc, dest, target)) =>
                && FetchU32(code, pc) == Some(argc) && FetchU32(code, pc + 4) == Some(dest)
                && FetchU32(code, pc + 8) == Some(target)
                && Contents() == WithPc(old(Contents()), pc + 12)
    {
      hide FetchU32, WithPc;
      ghost var s := Contents();
      PcLaws(s, Top(s).pc + 4);
      PcLaws(s, Top(s).pc + 8);
      var argc := NextU32(code);
      if argc.Err? { return Err(argc.error); }
      var dest := NextU32(code);
      if dest.Err? { return Err(dest.error); }
      var target := NextU32(code);
      if target.Err? { return Err(target.error); }
      r := Ok((argc.value, dest.value, target.value));
    }

    method DoCall(m: Module) returns (out: Option<ExecResult>)
      requires Ready(m, Contents())
      modifies this
      ensures Did(ExecCall(m, old(Contents())), out)
    {
      hide PushFrame, FetchU32, WithPc;
      ghost var s := WithPc(Contents(), Top(Contents()).pc + 12);
      PcLaws(Contents(), Top(Contents()).pc + 12);
      var operands := CallOperands(m.functions[frames[|frames| - 1].func].code);
      if operands.Err? { return Some(Err(operands.error)); }
      var (argc, dest, target) := operands.value;
      ghost var n: nat := argc;
      var args := PopMany(argc);
      if args.Err? { return Some(Err(args.error)); }
      if n < |s.stack| {
        PopTwice(s, n);
      }
      var callee := PopValue();
      if callee.Err? { return Some(Err(callee.error)); }
      var done := Enter(m, AsUsize(AsInt(callee.value)), args.value, target, dest);
      if done.Err? { return Some(Err(done.error)); }
      out := None;
    }

    method ExecuteOne(m: Module) returns (out: Option<ExecResult>)
      modifies this
      ensures Did(Step(m, old(Contents())), out)
    {
      hide ExecData, ExecValue, ExecJump, ExecCall, ExecReturn, FromByte;
      if frames == [] {
        var v := PopValue();
        return Some(if v.Ok? then Ok(v.value) else Err(EmptyReturn));
      }
      var top := frames[|frames| - 1];
      if top.func >= |m.functions| { return Some(Err(HostPanic)); }
      var code := m.functions[top.func].code;
      if top.pc >= |code| { return Some(Err(UnexpectedEndOfCode)); }
      var op := FromByte(code[top.pc]);
      if op.None? { return Some(Err(UnknownOpcode(code[top.pc]))); }
      JumpTo(top.pc + 1);
      match op.value {
        case LoadConst | LoadLocal | StoreLocal | LoadLocalAddr | StoreField | Deref | Drop =>
          out := DoData(m, op.value);
        case Jump | JumpIf | SwitchInt | Assert | Trap =>
          out := DoJump(m, op.value);
        case Return =>
          out := DoReturn(m);
        case Call | CallIndirect =>
          out := DoCall(m);
        case _ =>
          out := DoValue(m, op.value);
      }
    }

    /** The driver loop, cut off after `fuel` instructions: None says it was still running. */
    method Drive(m: Module, fuel: nat) returns (out: Option<ExecResult>)
      modifies this
      ensures Did(Steps(m, old(Contents()), fuel), out)
    {
      hide Step;
      ghost var s0 := Contents();
      for k := 0 to fuel
        invariant Steps(m, s0, fuel) == Steps(m, Contents(), fuel - k)
      {
        out := ExecuteOne(m);
        if out.Some? {
          return;
        }
      }
      out := None;
    }

    method RunModule(m: Module, fuel: nat) returns (out: Option<ExecResult>)
      requires Contents() == State([], [])
      modifies this
      ensures match Start(m)
              case Err(e) => out == Some(Err(e))
              case Ok(s) => Did(Steps(m, s, fuel), out)
    {
      hide Step;
      if m.functions == [] {
        return Some(Err(FunctionOutOfBounds(0)));
      }
      var entered := Enter(m, m.entry, [], U32_MAX, USIZE_MAX);
      if entered.Err? {
        return Some(Err(entered.error));
      }
      out := Drive(m, fuel);
    }
  }
}
