/** The peephole pass leaves the machine's result unchanged on straight-line code. */
module PeepholeCorrectness {
  import opened Int64
  import opened Wire
  import opened Wrappers
  import opened CodegenSpec
  import opened Peephole
  import opened DecodeCorrectness
  import opened Mir
  import MirRun
  import CC = CompilerCorrectness
  import V = VmSpec

  // ----- what straight-line code does -----

  /** Instructions that neither jump nor call, with the operand width the machine reads. */
  predicate StraightLine(i: Instr) {
    && Sized(i)
    && (|| IsFoldable(i.op) || i.op == OP_NOT || i.op == OP_NEG || i.op == OP_LOAD_CONST || i.op == OP_LOAD_LOCAL
        || i.op == OP_STORE_LOCAL || i.op == OP_CAST || i.op == OP_LEN || i.op == OP_DISCRIMINANT
        || i.op == OP_RETURN || i.op == OP_TRAP || InMemory(i.op) || i.op == OP_DROP)
  }

  /** Loads and stores through an address on the stack. */
  predicate InMemory(op: u8) {
    op == OP_DEREF || op == OP_STORE_FIELD
  }

  predicate AllStraight(instrs: seq<Instr>) {
    forall i <- instrs :: StraightLine(i)
  }

  /** The operand stack and the only frame; the frame's pc does not matter here. */
  datatype Core = Core(stack: seq<V.Value>, fr: V.Frame)

  datatype Effect = Go(core: Core) | End(result: V.ExecResult)

  function Fail(e: V.VmError): Effect {
    End(Err(e))
  }

  function Pushed(c: Core, v: V.Value): Effect {
    Go(c.(stack := c.stack + [v]))
  }

  function Popped(c: Core): Core
    requires c.stack != []
  {
    c.(stack := c.stack[..|c.stack| - 1])
  }

  function Last(c: Core): V.Value
    requires c.stack != []
  {
    c.stack[|c.stack| - 1]
  }

  function TupleLen(v: V.Value): V.Value {
    V.Int(if v.Tuple? then Wrap(|v.elems|) else 0)
  }

  /** One instruction on stack and frame. */
  function Eff(i: Instr, c: Core): Effect
    requires StraightLine(i)
  {
    if i.op == OP_LOAD_CONST then Pushed(c, V.Int(ReadI64(i.operand)))
    else if i.op == OP_LOAD_LOCAL then
      var k := ReadU32(i.operand);
      if k < |c.fr.locals| then Pushed(c, c.fr.locals[k]) else Fail(V.LocalOutOfBounds(k))
    else if i.op == OP_STORE_LOCAL then
      var k := ReadU32(i.operand);
      if c.stack == [] then Fail(V.StackUnderflow)
      else if k >= |c.fr.locals| then Fail(V.LocalOutOfBounds(k))
      else Go(Popped(c).(fr := V.SetLocal(c.fr, k, Last(c))))
    else if i.op == OP_NOT || i.op == OP_NEG then
      if c.stack == [] then Fail(V.StackUnderflow)
      else Pushed(Popped(c), V.Int(V.Unop(if i.op == OP_NOT then V.Not else V.Neg, V.AsInt(Last(c)))))
    else if i.op == OP_CAST then Go(c)
    else if i.op == OP_LEN then
      var k := ReadU32(i.operand);
      if k < |c.fr.locals| then Pushed(c, TupleLen(c.fr.locals[k])) else Fail(V.LocalOutOfBounds(k))
    else if i.op == OP_DISCRIMINANT then
      if c.stack == [] then Fail(V.StackUnderflow) else Pushed(Popped(c), TupleLen(Last(c)))
    else if i.op == OP_RETURN then End(Ok(if c.stack == [] then V.Int(0) else Last(c)))
    else if i.op == OP_TRAP then Fail(V.AbnormalTermination)
    else if i.op == OP_DROP then if c.stack == [] then Fail(V.StackUnderflow) else Go(Popped(c))
    else if i.op == OP_DEREF then DerefEff(c)
    else if i.op == OP_STORE_FIELD then StoreFieldEff(c)
    else BinaryEff(i.op, c)
  }

  function DerefEff(c: Core): Effect {
    if c.stack == [] then Fail(V.StackUnderflow)
    else
      var addr := AsUsize(V.AsInt(Last(c)));
      if addr >= |c.fr.mem| then Fail(V.LocalOutOfBounds(addr)) else Pushed(Popped(c), c.fr.mem[addr])
  }

  function StoreFieldEff(c: Core): Effect {
    if |c.stack| < 2 then Fail(V.StackUnderflow)
    else
      var addr := AsUsize(V.AsInt(Last(c)));
      if addr >= |c.fr.mem| then Fail(V.LocalOutOfBounds(addr))
      else Go(Popped(Popped(c)).(fr := c.fr.(mem := c.fr.mem[addr := Last(Popped(c))])))
  }

  function BinaryEff(op: u8, c: Core): Effect
    requires IsFoldable(op)
  {
    FoldableIsBinary(op);
    if |c.stack| < 2 then Fail(V.StackUnderflow)
    else
      match V.Binop(V.FromByte(op).value, V.AsInt(Last(Popped(c))), V.AsInt(Last(c)))
      case None => Fail(V.AbnormalTermination)
      case Some(r) => Pushed(Popped(Popped(c)), V.Int(r))
  }

  lemma FoldableIsBinary(op: u8)
    requires IsFoldable(op)
    ensures V.FromByte(op).Some? && V.IsBinary(V.FromByte(op).value) && Width(op) == 0
  {
  }

  /** Run a whole list; running off its end is the machine's end-of-code error. */
  function RunList(instrs: seq<Instr>, c: Core): V.ExecResult
    requires AllStraight(instrs)
  {
    if instrs == [] then Err(V.UnexpectedEndOfCode)
    else
      assert instrs[0] in instrs;
      var e := Eff(instrs[0], c);
      if e.End? then e.result else RunList(instrs[1..], e.core)
  }

  // ----- the byte-level machine runs the list -----

  function AtPc(c: Core, pc: nat): V.State {
    V.State(c.stack, [c.fr.(pc := pc)])
  }

  function Lift(e: Effect, pc: nat): V.StepResult {
    match e
    case Go(c) => V.Next(AtPc(c, pc))
    case End(r) => V.Done(r)
  }

  lemma InstrSim(m: V.Module, c: Core, pc: nat, i: Instr)
    requires StraightLine(i) && c.fr.func < |m.functions|
    requires CodeAt(m.functions[c.fr.func].code, pc, [i.op] + i.operand)
    ensures V.Step(m, AtPc(c, pc)) == Lift(Eff(i, c), pc + 1 + |i.operand|)
  {
    hide V.FromByte, V.Exec, CodeAt, Eff, V.FetchU32, V.FetchI64, IsFoldable;
    var code, s, s1 := m.functions[c.fr.func].code, AtPc(c, pc), AtPc(c, pc + 1);
    Fetch(code, pc, i);
    assert V.Top(s) == c.fr.(pc := pc);
    assert V.WithPc(s, pc + 1) == s1;
    if IsFoldable(i.op) {
      FoldableIsBinary(i.op);
      BinarySim(m, c, pc + 1, i.op, i.operand);
    } else if i.op == OP_RETURN || i.op == OP_TRAP || i.op == OP_NOT || i.op == OP_NEG || i.op == OP_CAST
      || i.op == OP_DISCRIMINANT {
      StackSim(m, c, pc + 1, i);
    } else if InMemory(i.op) || i.op == OP_DROP {
      MemorySim(m, c, pc + 1, i);
    } else {
      OperandSim(m, c, pc + 1, i);
    }
  }

  lemma Fetch(code: Bytes, pc: nat, i: Instr)
    requires StraightLine(i) && CodeAt(code, pc, [i.op] + i.operand)
    ensures pc < |code| && code[pc] == i.op && V.FromByte(i.op).Some?
    ensures |i.operand| == 4 ==> V.FetchU32(code, pc + 1) == Some(ReadU32(i.operand))
    ensures |i.operand| == 8 ==> V.FetchI64(code, pc + 1) == Some(ReadI64(i.operand))
    ensures |i.operand| == 1 ==> pc + 1 < |code|
  {
    hide ReadU32, ReadI64;
    CodeAtSplit(code, pc, [i.op], i.operand);
    assert code[pc] == code[pc..pc + 1][0];
  }

  lemma BinarySim(m: V.Module, c: Core, pc: nat, op: u8, operand: Bytes)
    requires IsFoldable(op) && c.fr.func < |m.functions| && operand == [] && Sized(Instr(op, operand))
    ensures V.FromByte(op).Some?
    ensures V.Exec(m, AtPc(c, pc), V.FromByte(op).value) == Lift(Eff(Instr(op, operand), c), pc)
  {
    hide V.Binop, V.FromByte, V.Exec, IsFoldable;
    FoldableIsBinary(op);
    V.BinaryExec(m, AtPc(c, pc), V.FromByte(op).value);
    BinaryIsLast(op);
    if |c.stack| >= 2 {
      assert c.stack[..|c.stack| - 2] == Popped(Popped(c)).stack;
    }
  }

  lemma BinaryIsLast(op: u8)
    requires IsFoldable(op)
    ensures forall c, operand {:trigger Eff(Instr(op, operand), c)} ::
              StraightLine(Instr(op, operand)) ==> Eff(Instr(op, operand), c) == BinaryEff(op, c)
  {
    hide BinaryEff, V.FromByte;
  }

  lemma StackSim(m: V.Module, c: Core, pc: nat, i: Instr)
    requires StraightLine(i) && c.fr.func < |m.functions|
    requires i.op == OP_RETURN || i.op == OP_TRAP || i.op == OP_NOT || i.op == OP_NEG || i.op == OP_CAST
          || i.op == OP_DISCRIMINANT
    requires i.op == OP_CAST ==> pc < |m.functions[c.fr.func].code|
    ensures V.FromByte(i.op).Some?
    ensures V.Exec(m, AtPc(c, pc), V.FromByte(i.op).value) == Lift(Eff(i, c), pc + |i.operand|)
  {
    hide V.FromByte, V.Exec, Eff, IsFoldable;
    StackOpcodes();
    NotFoldableOp(i.op);
    if i.op == OP_RETURN || i.op == OP_TRAP {
      ExitSim(m, c, pc, i);
    } else if i.op == OP_NOT || i.op == OP_NEG {
      NegationSim(m, c, pc, i);
    } else {
      ShapeSim(m, c, pc, i);
    }
  }

  lemma ExitSim(m: V.Module, c: Core, pc: nat, i: Instr)
    requires StraightLine(i) && c.fr.func < |m.functions| && (i.op == OP_RETURN || i.op == OP_TRAP)
    ensures V.Exec(m, AtPc(c, pc), if i.op == OP_RETURN then V.Return else V.Trap) == Lift(Eff(i, c), pc)
  {
    hide IsFoldable;
    NotFoldableOp(i.op);
    var s := AtPc(c, pc);
    assert V.Top(s) == c.fr.(pc := pc);
    assert s.frames[..0] == [];
  }

  lemma NegationSim(m: V.Module, c: Core, pc: nat, i: Instr)
    requires StraightLine(i) && c.fr.func < |m.functions| && (i.op == OP_NOT || i.op == OP_NEG)
    ensures V.Exec(m, AtPc(c, pc), if i.op == OP_NOT then V.Not else V.Neg) == Lift(Eff(i, c), pc)
  {
    hide V.Unop, IsFoldable;
    NotFoldableOp(i.op);
    assert V.Top(AtPc(c, pc)) == c.fr.(pc := pc);
  }

  lemma ShapeSim(m: V.Module, c: Core, pc: nat, i: Instr)
    requires StraightLine(i) && c.fr.func < |m.functions| && (i.op == OP_CAST || i.op == OP_DISCRIMINANT)
    requires i.op == OP_CAST ==> pc < |m.functions[c.fr.func].code|
    ensures V.Exec(m, AtPc(c, pc), if i.op == OP_CAST then V.Cast else V.Discriminant)
         == Lift(Eff(i, c), pc + |i.operand|)
  {
    hide IsFoldable;
    NotFoldableOp(i.op);
    assert V.Top(AtPc(c, pc)) == c.fr.(pc := pc);
    assert V.WithPc(AtPc(c, pc), pc + 1) == AtPc(c, pc + 1);
  }

  lemma NotFoldableOp(op: u8)
    requires op == OP_RETURN || op == OP_TRAP || op == OP_NOT || op == OP_NEG || op == OP_CAST || op == OP_DISCRIMINANT
    ensures !IsFoldable(op)
  {
  }

  lemma MemorySim(m: V.Module, c: Core, pc: nat, i: Instr)
    requires StraightLine(i) && c.fr.func < |m.functions| && (InMemory(i.op) || i.op == OP_DROP)
    ensures V.FromByte(i.op).Some?
    ensures V.Exec(m, AtPc(c, pc), V.FromByte(i.op).value) == Lift(Eff(i, c), pc)
  {
    hide V.FromByte, V.Exec, DerefEff, StoreFieldEff;
    MemoryOpcodes();
    DropSim(m, c, pc);
    DerefSim(m, c, pc);
    StoreFieldSim(m, c, pc);
  }

  lemma DropSim(m: V.Module, c: Core, pc: nat)
    requires c.fr.func < |m.functions|
    ensures V.Exec(m, AtPc(c, pc), V.Drop) ==
            if c.stack == [] then V.Stop(V.StackUnderflow) else V.Next(AtPc(Popped(c), pc))
  {
    assert V.Top(AtPc(c, pc)) == c.fr.(pc := pc);
  }

  lemma DerefSim(m: V.Module, c: Core, pc: nat)
    requires c.fr.func < |m.functions|
    ensures V.Exec(m, AtPc(c, pc), V.Deref) == Lift(DerefEff(c), pc)
  {
    assert V.Top(AtPc(c, pc)) == c.fr.(pc := pc);
  }

  lemma StoreFieldSim(m: V.Module, c: Core, pc: nat)
    requires c.fr.func < |m.functions|
    ensures V.Exec(m, AtPc(c, pc), V.StoreField) == Lift(StoreFieldEff(c), pc)
  {
    assert V.Top(AtPc(c, pc)) == c.fr.(pc := pc);
    if |c.stack| >= 2 {
      assert c.stack[..|c.stack| - 2] == Popped(Popped(c)).stack;
    }
  }

  lemma MemoryOpcodes()
    ensures V.FromByte(OP_DEREF) == Some(V.Deref)
    ensures V.FromByte(OP_STORE_FIELD) == Some(V.StoreField)
    ensures V.FromByte(OP_DROP) == Some(V.Drop)
    ensures !IsFoldable(OP_DEREF) && !IsFoldable(OP_STORE_FIELD) && !IsFoldable(OP_DROP)
  {
  }

  lemma StackOpcodes()
    ensures V.FromByte(OP_RETURN) == Some(V.Return)
    ensures V.FromByte(OP_TRAP) == Some(V.Trap)
    ensures V.FromByte(OP_NOT) == Some(V.Not)
    ensures V.FromByte(OP_NEG) == Some(V.Neg)
    ensures V.FromByte(OP_CAST) == Some(V.Cast)
    ensures V.FromByte(OP_DISCRIMINANT) == Some(V.Discriminant)
  {
  }

  lemma OperandSim(m: V.Module, c: Core, pc: nat, i: Instr)
    requires StraightLine(i) && c.fr.func < |m.functions|
    requires i.op == OP_LOAD_CONST || i.op == OP_LOAD_LOCAL || i.op == OP_STORE_LOCAL || i.op == OP_LEN
    requires |i.operand| == 4 ==> V.FetchU32(m.functions[c.fr.func].code, pc) == Some(ReadU32(i.operand))
    requires |i.operand| == 8 ==> V.FetchI64(m.functions[c.fr.func].code, pc) == Some(ReadI64(i.operand))
    ensures V.FromByte(i.op).Some?
    ensures V.Exec(m, AtPc(c, pc), V.FromByte(i.op).value) == Lift(Eff(i, c), pc + |i.operand|)
  {
    hide V.FromByte, V.SetLocal, V.FetchU32, V.FetchI64, ReadU32, ReadI64;
    OperandOpcodes();
    var s := AtPc(c, pc);
    assert V.Top(s) == c.fr.(pc := pc);
    assert V.WithPc(s, pc + |i.operand|) == AtPc(c, pc + |i.operand|);
    if i.op == OP_STORE_LOCAL {
      SetLocalPc(c.fr, pc + 4);
    }
  }

  lemma SetLocalPc(fr: V.Frame, pc: nat)
    ensures forall k: nat, v {:trigger V.SetLocal(fr, k, v)} ::
              k < |fr.locals| ==> V.SetLocal(fr.(pc := pc), k, v) == V.SetLocal(fr, k, v).(pc := pc)
  {
    hide V.Mirror;
  }

  lemma OperandOpcodes()
    ensures V.FromByte(OP_LOAD_CONST) == Some(V.LoadConst)
    ensures V.FromByte(OP_LOAD_LOCAL) == Some(V.LoadLocal)
    ensures V.FromByte(OP_STORE_LOCAL) == Some(V.StoreLocal)
    ensures V.FromByte(OP_LEN) == Some(V.Len)
  {
  }

  /** The machine, started at the list's first byte, ends with the list's result. */
  lemma {:induction false} CodeRun(m: V.Module, before: Bytes, instrs: seq<Instr>, c: Core)
    requires AllStraight(instrs) && c.fr.func < |m.functions|
    requires m.functions[c.fr.func].code == before + Encode(instrs)
    ensures V.Steps(m, AtPc(c, |before|), |instrs| + 1) == V.Done(RunList(instrs, c))
    decreases |instrs|
  {
    hide Eff, V.Step, StraightLine;
    var s := AtPc(c, |before|);
    if instrs == [] {
      EndOfCode(m, c, |before|);
      assert V.Steps(m, s, 1) == V.Step(m, s);
    } else {
      var i, rest := instrs[0], instrs[1..];
      assert instrs == [i] + rest && i in instrs;
      EncodeAppend([i], rest);
      EncodeOne(i);
      var first := [i.op] + i.operand;
      assert before + (first + Encode(rest)) == (before + first) + Encode(rest);
      var code := m.functions[c.fr.func].code;
      assert code[|before|..|before| + |first|] == first;
      InstrSim(m, c, |before|, i);
      if Eff(i, c).Go? {
        SameFunction(i, c);
        CodeRun(m, before + first, rest, Eff(i, c).core);
      }
    }
  }

  lemma EndOfCode(m: V.Module, c: Core, pc: nat)
    requires c.fr.func < |m.functions| && pc >= |m.functions[c.fr.func].code|
    ensures V.Step(m, AtPc(c, pc)) == V.Stop(V.UnexpectedEndOfCode)
  {
    hide V.FromByte, V.Exec;
    assert V.Top(AtPc(c, pc)) == c.fr.(pc := pc);
  }

  lemma SameFunction(i: Instr, c: Core)
    requires StraightLine(i) && Eff(i, c).Go?
    ensures Eff(i, c).core.fr.func == c.fr.func
  {
    hide V.FromByte, V.Binop, V.Mirror;
  }

  // ----- the pass keeps the result -----

  predicate Ints(vs: seq<V.Value>) {
    forall v <- vs :: v.Int?
  }

  /** Only code that loads from memory cares what memory holds. */
  predicate AllInts(c: Core, loads: bool) {
    Ints(c.stack) && Ints(c.fr.locals) && (loads ==> Ints(c.fr.mem))
  }

  predicate Loads(instrs: seq<Instr>) {
    exists i <- instrs :: i.op == OP_DEREF
  }

  lemma EffInts(i: Instr, c: Core, loads: bool)
    requires StraightLine(i) && AllInts(c, loads) && Eff(i, c).Go? && (i.op == OP_DEREF ==> loads)
    ensures AllInts(Eff(i, c).core, loads)
  {
    hide V.FromByte, V.Binop, V.Mirror, ReadU32, ReadI64, IsFoldable;
    MemoryOpcodes();
    if i.op == OP_STORE_LOCAL && c.stack != [] {
      assert Last(c) in c.stack;
      StoreInts(c.fr, ReadU32(i.operand), Last(c), loads);
    }
  }

  lemma StoreInts(fr: V.Frame, k: nat, v: V.Value, loads: bool)
    requires Ints(fr.locals) && (loads ==> Ints(fr.mem)) && v.Int?
    ensures k < |fr.locals| ==> var after := V.SetLocal(fr, k, v); Ints(after.locals) && (loads ==> Ints(after.mem))
  {
    hide V.Mirror;
    MirrorNone(if k < |fr.mem| then fr.mem[k := v] else fr.mem, k + 1);
  }

  lemma MirrorNone(mem: seq<V.Value>, at: nat)
    ensures V.Mirror(mem, at, []) == mem
  {
  }

  lemma FoldAgrees(op: u8, a: i64, b: i64)
    requires IsFoldable(op)
    ensures V.FromByte(op).Some? && V.IsBinary(V.FromByte(op).value)
    ensures var r := V.Binop(V.FromByte(op).value, a, b);
            match FoldIntBinop(op, a, b)
            case Folded(v) => r == Some(v)
            case NotFoldable => r == None
            case FoldPanics => r == None
  {
    hide CheckedDiv, CheckedRem, Bitwise, Int64.Shl, Int64.Shr, Wrap, Bool;
  }

  lemma NegNeg(a: i64)
    ensures Wrap(0 - Wrap(0 - a)) == a
  {
  }

  lemma LoadEff(i: Instr, c: Core)
    requires StraightLine(i) && i.op == OP_LOAD_CONST
    ensures Eff(i, c) == Pushed(c, V.Int(ReadI64(i.operand)))
  {
  }

  /** Two constant loads and an operator push what a load of the folded constant pushes. */
  lemma FoldEff(x: Instr, y: Instr, op: Instr, v: i64, c: Core)
    requires StraightLine(x) && StraightLine(y) && StraightLine(op)
    requires x.op == OP_LOAD_CONST && y.op == OP_LOAD_CONST && IsFoldable(op.op)
    requires FoldIntBinop(op.op, ReadI64(x.operand), ReadI64(y.operand)) == Folded(v)
    ensures var c1 := Eff(x, c).core;
            Eff(x, c).Go? && Eff(y, c1).Go? && Eff(op, Eff(y, c1).core) == Pushed(c, V.Int(v))
  {
    hide V.FromByte, V.Binop, FoldIntBinop, ReadI64;
    LoadEff(x, c);
    LoadEff(y, Eff(x, c).core);
    var a, b := ReadI64(x.operand), ReadI64(y.operand);
    FoldAgrees(op.op, a, b);
    var c2 := Eff(y, Eff(x, c).core).core;
    assert Popped(c2).stack == c.stack + [V.Int(a)];
    assert Popped(Popped(c2)).stack == c.stack;
    assert Eff(op, c2) == BinaryEff(op.op, c2);
  }

  /** Two negations of an integer leave the stack as it was. */
  lemma DoubleNegEff(x: Instr, y: Instr, c: Core)
    requires StraightLine(x) && StraightLine(y) && x.op == OP_NEG && y.op == OP_NEG
    requires c.stack != [] && Last(c).Int?
    ensures Eff(x, c).Go? && Eff(y, Eff(x, c).core) == Go(c)
  {
    hide Wrap;
    NegNeg(Last(c).v);
    var c1 := Eff(x, c).core;
    assert Popped(c1).stack == Popped(c).stack;
    assert Popped(c).stack + [Last(c)] == c.stack;
  }

  lemma RunCons(i: Instr, rest: seq<Instr>, c: Core)
    requires StraightLine(i) && AllStraight(rest)
    ensures AllStraight([i] + rest)
    ensures RunList([i] + rest, c) == if Eff(i, c).End? then Eff(i, c).result else RunList(rest, Eff(i, c).core)
  {
    hide Eff, StraightLine;
    assert ([i] + rest)[1..] == rest;
  }

  lemma SuffixStraight(instrs: seq<Instr>, k: nat)
    requires AllStraight(instrs) && k < |instrs|
    ensures StraightLine(instrs[k]) && AllStraight(instrs[k..]) && AllStraight(instrs[k + 1..])
    ensures instrs[k..] == [instrs[k]] + instrs[k + 1..]
  {
    assert instrs[k] in instrs;
  }

  lemma StraightWhole(instrs: seq<Instr>)
    requires AllStraight(instrs)
    ensures WholeConstants(instrs)
  {
    forall k | 0 <= k < |instrs| && instrs[k].op == OP_LOAD_CONST
      ensures |instrs[k].operand| == 8
    {
      assert instrs[k] in instrs;
    }
  }

  /**
  The pass preserves the result of every straight-line list, traps included, from every state whose
  stack and locals hold integers and are deep enough for the original not to underflow.
  */
  lemma {:induction false} PeepholePreserves(instrs: seq<Instr>, k: nat, flags: seq<bool>, c: Core)
    requires AllStraight(instrs) && WholeConstants(instrs) && k <= |instrs|
    requires AllStraight(instrs[k..]) && AllInts(c, Loads(instrs))
    requires RunList(instrs[k..], c) != Err(V.StackUnderflow)
    requires Optimize(instrs, k, flags).Some?
    ensures AllStraight(Optimize(instrs, k, flags).value)
    ensures RunList(Optimize(instrs, k, flags).value, c) == RunList(instrs[k..], c)
    decreases |instrs| - k
  {
    hide Eff, StraightLine, FoldIntBinop, IsFoldable, ReadI64, AllInts;
    if k < |instrs| {
      SuffixStraight(instrs, k);
      var i := instrs[k];
      RunCons(i, instrs[k + 1..], c);
      if AtFold(instrs, k, flags)
        && FoldIntBinop(instrs[k + 2].op, ConstAt(instrs, k), ConstAt(instrs, k + 1)).Folded? {
        FoldCase(instrs, k, flags, c);
      } else if AtDoubleNeg(instrs, k) {
        DoubleNegCase(instrs, k, flags, c);
      } else {
        var f := if i.op == OP_LOAD_CONST then Tail(flags) else flags;
        assert Optimize(instrs, k, flags) == Keep(i, Optimize(instrs, k + 1, f));
        KeepCase(instrs, k, f, c);
      }
    }
  }

  lemma {:induction false} KeepCase(instrs: seq<Instr>, k: nat, f: seq<bool>, c: Core)
    requires AllStraight(instrs) && WholeConstants(instrs) && k < |instrs|
    requires AllStraight(instrs[k..]) && AllInts(c, Loads(instrs))
    requires RunList(instrs[k..], c) != Err(V.StackUnderflow)
    requires Optimize(instrs, k + 1, f).Some?
    ensures var out := Keep(instrs[k], Optimize(instrs, k + 1, f)).value;
            AllStraight(out) && RunList(out, c) == RunList(instrs[k..], c)
    decreases |instrs| - k, 0
  {
    hide Eff, StraightLine, AllInts, Optimize;
    SuffixStraight(instrs, k);
    var i := instrs[k];
    RunCons(i, instrs[k + 1..], c);
    var rest := Optimize(instrs, k + 1, f).value;
    if Eff(i, c).Go? {
      EffInts(i, c, Loads(instrs));
      PeepholePreserves(instrs, k + 1, f, Eff(i, c).core);
    } else {
      OptimizeStraight(instrs, k + 1, f);
    }
    RunCons(i, rest, c);
  }

  /** The pass puts out straight-line instructions only. */
  lemma {:induction false} OptimizeStraight(instrs: seq<Instr>, k: nat, flags: seq<bool>)
    requires AllStraight(instrs) && WholeConstants(instrs) && k <= |instrs| && Optimize(instrs, k, flags).Some?
    ensures AllStraight(Optimize(instrs, k, flags).value)
    decreases |instrs| - k
  {
    hide FoldIntBinop, IsFoldable, ReadI64;
    if k < |instrs| {
      assert instrs[k] in instrs;
      if AtFold(instrs, k, flags) {
        match FoldIntBinop(instrs[k + 2].op, ConstAt(instrs, k), ConstAt(instrs, k + 1))
        case Folded(v) => OptimizeStraight(instrs, k + 3, Tail(Tail(flags)));
        case NotFoldable => OptimizeStraight(instrs, k + 1, Tail(flags));
      } else if AtDoubleNeg(instrs, k) {
        OptimizeStraight(instrs, k + 2, flags);
      } else {
        OptimizeStraight(instrs, k + 1, if instrs[k].op == OP_LOAD_CONST then Tail(flags) else flags);
      }
    }
  }

  lemma {:induction false} FoldCase(instrs: seq<Instr>, k: nat, flags: seq<bool>, c: Core)
    requires AllStraight(instrs) && WholeConstants(instrs) && k < |instrs|
    requires AllStraight(instrs[k..]) && AllInts(c, Loads(instrs))
    requires RunList(instrs[k..], c) != Err(V.StackUnderflow)
    requires AtFold(instrs, k, flags)
    requires FoldIntBinop(instrs[k + 2].op, ConstAt(instrs, k), ConstAt(instrs, k + 1)).Folded?
    requires Optimize(instrs, k, flags).Some?
    ensures AllStraight(Optimize(instrs, k, flags).value)
    ensures RunList(Optimize(instrs, k, flags).value, c) == RunList(instrs[k..], c)
    decreases |instrs| - k, 0
  {
    hide Eff, StraightLine, FoldIntBinop, IsFoldable, ReadI64, I64Le;
    SuffixStraight(instrs, k);
    SuffixStraight(instrs, k + 1);
    SuffixStraight(instrs, k + 2);
    var x, y, op := instrs[k], instrs[k + 1], instrs[k + 2];
    var v := FoldIntBinop(op.op, ConstAt(instrs, k), ConstAt(instrs, k + 1)).value;
    FoldEff(x, y, op, v, c);
    var c1 := Eff(x, c).core;
    RunCons(x, instrs[k + 1..], c);
    RunCons(y, instrs[k + 2..], c1);
    RunCons(op, instrs[k + 3..], Eff(y, c1).core);
    var load, after := Instr(OP_LOAD_CONST, I64Le(v)), Pushed(c, V.Int(v)).core;
    LoadStraight(v);
    LoadEff(load, c);
    I64RoundTrip(v);
    PeepholePreserves(instrs, k + 3, Tail(Tail(flags)), after);
    RunCons(load, Optimize(instrs, k + 3, Tail(Tail(flags))).value, c);
  }

  lemma LoadStraight(v: i64)
    ensures StraightLine(Instr(OP_LOAD_CONST, I64Le(v)))
  {
  }

  lemma {:induction false} DoubleNegCase(instrs: seq<Instr>, k: nat, flags: seq<bool>, c: Core)
    requires AllStraight(instrs) && WholeConstants(instrs) && k < |instrs|
    requires AllStraight(instrs[k..]) && AllInts(c, Loads(instrs))
    requires RunList(instrs[k..], c) != Err(V.StackUnderflow)
    requires !AtFold(instrs, k, flags) && AtDoubleNeg(instrs, k)
    requires Optimize(instrs, k, flags).Some?
    ensures AllStraight(Optimize(instrs, k, flags).value)
    ensures RunList(Optimize(instrs, k, flags).value, c) == RunList(instrs[k..], c)
    decreases |instrs| - k, 0
  {
    hide Eff, StraightLine;
    SuffixStraight(instrs, k);
    SuffixStraight(instrs, k + 1);
    var x, y := instrs[k], instrs[k + 1];
    RunCons(x, instrs[k + 1..], c);
    if c.stack == [] {
      NegUnderflow(x, c);
    }
    assert Last(c) in c.stack;
    DoubleNegEff(x, y, c);
    RunCons(y, instrs[k + 2..], Eff(x, c).core);
    PeepholePreserves(instrs, k + 2, flags, c);
  }

  lemma NegUnderflow(i: Instr, c: Core)
    requires StraightLine(i) && i.op == OP_NEG && c.stack == []
    ensures Eff(i, c) == Fail(V.StackUnderflow)
  {
  }

  // ----- when the pass itself panics -----

  /** The flags left when the pass has gone from k to j. */
  function FlagsAt(instrs: seq<Instr>, k: nat, j: nat, flags: seq<bool>): seq<bool>
    requires k <= j <= |instrs|
    decreases j - k
  {
    if k == j then flags
    else FlagsAt(instrs, k + 1, j, if instrs[k].op == OP_LOAD_CONST then Tail(flags) else flags)
  }

  /** At j two integer constants meet a remainder that has no value. */
  predicate UndefinedRem(instrs: seq<Instr>, k: nat, j: nat, flags: seq<bool>)
    requires WholeConstants(instrs) && k <= j <= |instrs|
  {
    && AtFold(instrs, j, FlagsAt(instrs, k, j, flags))
    && instrs[j + 2].op == OP_REM
    && CheckedRem(ConstAt(instrs, j), ConstAt(instrs, j + 1)).None?
  }

  lemma PanicIsRem(op: u8, a: i64, b: i64)
    ensures FoldIntBinop(op, a, b).FoldPanics? <==> op == OP_REM && CheckedRem(a, b).None?
  {
    hide CheckedRem, CheckedDiv, Wrap, Bitwise, Int64.Shl, Int64.Shr;
  }

  /** The pass panics exactly when an undefined remainder of two integer constants stands in the code. */
  lemma {:induction false} PanicsExactly(instrs: seq<Instr>, k: nat, flags: seq<bool>)
    requires WholeConstants(instrs) && k <= |instrs|
    ensures Optimize(instrs, k, flags).None? <==> exists j :: k <= j <= |instrs| && UndefinedRem(instrs, k, j, flags)
    decreases |instrs| - k
  {
    hide FoldIntBinop, IsFoldable, ReadI64;
    if k < |instrs| {
      var step, rest := PassStep(instrs, k, flags);
      if step > 0 {
        var next := k + step;
        PanicsExactly(instrs, next, rest);
        if j :| next <= j <= |instrs| && UndefinedRem(instrs, next, j, rest) {
          SkipFlags(instrs, k, step, flags, rest, j);
          assert UndefinedRem(instrs, k, j, flags);
        }
        if j :| k <= j <= |instrs| && UndefinedRem(instrs, k, j, flags) {
          NotSkipped(instrs, k, step, flags, rest, j);
          SkipFlags(instrs, k, step, flags, rest, j);
          assert UndefinedRem(instrs, next, j, rest);
        }
      } else {
        assert FlagsAt(instrs, k, k, flags) == flags;
        assert UndefinedRem(instrs, k, k, flags);
      }
    }
  }

  /** How far one turn of the pass moves, 0 when it panics. */
  lemma PassStep(instrs: seq<Instr>, k: nat, flags: seq<bool>) returns (step: nat, rest: seq<bool>)
    requires WholeConstants(instrs) && k < |instrs|
    ensures step <= 3 && k + step <= |instrs| && rest == FlagsAt(instrs, k, k + step, flags)
    ensures step == 0 <==> UndefinedRem(instrs, k, k, flags)
    ensures step == 0 ==> Optimize(instrs, k, flags).None?
    ensures step > 0 ==> (Optimize(instrs, k, flags).None? <==> Optimize(instrs, k + step, rest).None?)
    ensures step == 3 ==> AtFold(instrs, k, flags)
    ensures step == 2 ==> AtDoubleNeg(instrs, k)
  {
    hide FoldIntBinop, IsFoldable, ReadI64;
    assert FlagsAt(instrs, k, k, flags) == flags;
    if AtFold(instrs, k, flags) {
      IsFoldableOp(instrs[k + 2].op);
      PanicIsRem(instrs[k + 2].op, ConstAt(instrs, k), ConstAt(instrs, k + 1));
      match FoldIntBinop(instrs[k + 2].op, ConstAt(instrs, k), ConstAt(instrs, k + 1))
      case FoldPanics => step, rest := 0, flags;
      case NotFoldable =>
        step, rest := 1, Tail(flags);
        assert FlagsAt(instrs, k + 1, k + 1, rest) == rest;
      case Folded(_) =>
        step, rest := 3, Tail(Tail(flags));
        assert FlagsAt(instrs, k + 3, k + 3, rest) == rest;
        assert FlagsAt(instrs, k + 2, k + 3, rest) == rest;
        assert FlagsAt(instrs, k + 1, k + 3, Tail(flags)) == rest;
    } else if AtDoubleNeg(instrs, k) {
      step, rest := 2, flags;
      assert FlagsAt(instrs, k + 2, k + 2, rest) == rest;
      assert FlagsAt(instrs, k + 1, k + 2, rest) == rest;
    } else {
      step, rest := 1, if instrs[k].op == OP_LOAD_CONST then Tail(flags) else flags;
      assert FlagsAt(instrs, k + 1, k + 1, rest) == rest;
    }
  }

  lemma IsFoldableOp(op: u8)
    requires IsFoldable(op)
    ensures op != OP_LOAD_CONST && op != OP_NEG
  {
  }

  lemma {:induction false} SkipFlags(instrs: seq<Instr>, k: nat, step: nat, flags: seq<bool>, rest: seq<bool>, j: nat)
    requires k + step <= j <= |instrs| && rest == FlagsAt(instrs, k, k + step, flags)
    ensures FlagsAt(instrs, k, j, flags) == FlagsAt(instrs, k + step, j, rest)
    decreases step
  {
    if step > 0 {
      SkipFlags(instrs, k + 1, step - 1, if instrs[k].op == OP_LOAD_CONST then Tail(flags) else flags, rest, j);
    }
  }

  /** What a turn passes over holds no undefined remainder. */
  lemma NotSkipped(instrs: seq<Instr>, k: nat, step: nat, flags: seq<bool>, rest: seq<bool>, j: nat)
    requires WholeConstants(instrs) && k < |instrs| && 0 < step <= 3 && k + step <= |instrs| && k <= j <= |instrs|
    requires !UndefinedRem(instrs, k, k, flags) && UndefinedRem(instrs, k, j, flags)
    requires step == 3 ==> AtFold(instrs, k, flags)
    requires step == 2 ==> AtDoubleNeg(instrs, k)
    ensures j >= k + step
  {
    if step == 3 {
      IsFoldableOp(instrs[k + 2].op);
    }
  }

  // ----- compiled code without jumps, optimised -----

  function OperandInstr(o: Operand): Instr
    requires MirRun.ScalarOperand(o)
  {
    if o.Constant? then Instr(OP_LOAD_CONST, I64Le(MirRun.ConstValue(o.value)))
    else Instr(OP_LOAD_LOCAL, U32Le(o.place.local))
  }

  function RvalueInstrs(r: Rvalue): seq<Instr>
    requires MirRun.ScalarRvalue(r)
  {
    match r
    case Use(o) => [OperandInstr(o)]
    case BinaryOp(op, a, b) => [OperandInstr(a), OperandInstr(b), Instr(BinOpcode(op), [])]
    case UnaryOp(op, o) => [OperandInstr(o), Instr(if op.Not? then OP_NOT else OP_NEG, [])]
  }

  function StatementInstrs(s: Statement): seq<Instr>
    requires MirRun.ScalarStatement(s)
  {
    if s.Assign? then RvalueInstrs(s.rvalue) + [Instr(OP_STORE_LOCAL, U32Le(s.dest.local))] else []
  }

  function StatementsInstrs(ss: seq<Statement>): seq<Instr>
    requires forall s <- ss :: MirRun.ScalarStatement(s)
  {
    if ss == [] then [] else StatementInstrs(ss[0]) + StatementsInstrs(ss[1..])
  }

  predicate JumpFree(t: Terminator) {
    t.Return? || t.Unreachable?
  }

  function TerminatorInstrs(body: Body, t: Terminator): seq<Instr>
    requires JumpFree(t)
  {
    if t.Unreachable? then [Instr(OP_TRAP, [])]
    else if MirRun.ReturnsUnit(body) then [Instr(OP_RETURN, [])]
    else [Instr(OP_LOAD_LOCAL, U32Le(0)), Instr(OP_RETURN, [])]
  }

  lemma AppendStraight(a: seq<Instr>, b: seq<Instr>)
    requires AllStraight(a) && AllStraight(b)
    ensures AllStraight(a + b)
  {
    hide StraightLine;
  }

  lemma OperandListed(o: Operand)
    requires MirRun.ScalarOperand(o)
    ensures StraightLine(OperandInstr(o)) && Encode([OperandInstr(o)]) == OperandBytes(o)
  {
    hide Encode, IsFoldable;
    EncodeOne(OperandInstr(o));
  }

  lemma BareListed(op: u8)
    requires IsFoldable(op) || op == OP_NOT || op == OP_NEG || op == OP_RETURN || op == OP_TRAP
    ensures StraightLine(Instr(op, [])) && Encode([Instr(op, [])]) == [op]
  {
    EncodeOne(Instr(op, []));
  }

  lemma BinOpcodeFoldable(op: BinOp)
    ensures IsFoldable(BinOpcode(op))
  {
  }

  lemma RvalueListed(r: Rvalue)
    requires MirRun.ScalarRvalue(r)
    ensures AllStraight(RvalueInstrs(r)) && Encode(RvalueInstrs(r)) == RvalueBytes(r)
  {
    hide Encode, StraightLine, OperandInstr, OperandBytes, IsFoldable, BinOpcode;
    match r
    case Use(o) => OperandListed(o);
    case BinaryOp(op, a, b) =>
      OperandListed(a);
      OperandListed(b);
      BinOpcodeFoldable(op);
      BareListed(BinOpcode(op));
      EncodeAppend([OperandInstr(a)], [OperandInstr(b)]);
      EncodeAppend([OperandInstr(a), OperandInstr(b)], [Instr(BinOpcode(op), [])]);
      assert [OperandInstr(a)] + [OperandInstr(b)] == [OperandInstr(a), OperandInstr(b)];
      assert [OperandInstr(a), OperandInstr(b)] + [Instr(BinOpcode(op), [])] == RvalueInstrs(r);
    case UnaryOp(op, o) =>
      OperandListed(o);
      var code := if op.Not? then OP_NOT else OP_NEG;
      BareListed(code);
      EncodeAppend([OperandInstr(o)], [Instr(code, [])]);
      assert [OperandInstr(o)] + [Instr(code, [])] == RvalueInstrs(r);
  }

  lemma StoreListed(i: u32)
    ensures var store := Instr(OP_STORE_LOCAL, U32Le(i));
            StraightLine(store) && Encode([store]) == [OP_STORE_LOCAL] + U32Le(i)
  {
    hide Encode, IsFoldable;
    EncodeOne(Instr(OP_STORE_LOCAL, U32Le(i)));
  }

  lemma StatementListed(s: Statement)
    requires MirRun.ScalarStatement(s)
    ensures AllStraight(StatementInstrs(s)) && Encode(StatementInstrs(s)) == StatementBytes(s)
  {
    hide Encode, StraightLine, RvalueInstrs, RvalueBytes;
    EncodeNone();
    if s.Assign? {
      var store := Instr(OP_STORE_LOCAL, U32Le(s.dest.local));
      RvalueListed(s.rvalue);
      StoreListed(s.dest.local);
      EncodeAppend(RvalueInstrs(s.rvalue), [store]);
      AppendStraight(RvalueInstrs(s.rvalue), [store]);
    }
  }

  lemma {:induction false} StatementsListed(ss: seq<Statement>)
    requires forall s <- ss :: MirRun.ScalarStatement(s)
    ensures AllStraight(StatementsInstrs(ss)) && Encode(StatementsInstrs(ss)) == StatementsBytes(ss)
  {
    hide Encode, StraightLine, StatementInstrs, StatementBytes;
    EncodeNone();
    if ss != [] {
      StatementListed(ss[0]);
      StatementsListed(ss[1..]);
      EncodeAppend(StatementInstrs(ss[0]), StatementsInstrs(ss[1..]));
      AppendStraight(StatementInstrs(ss[0]), StatementsInstrs(ss[1..]));
    }
  }

  lemma TerminatorListed(body: Body, t: Terminator)
    requires JumpFree(t)
    ensures AllStraight(TerminatorInstrs(body, t)) && Encode(TerminatorInstrs(body, t)) == TerminatorBytes(body, t)
  {
    hide Encode, StraightLine, OperandBytes, IsFoldable;
    BareListed(OP_TRAP);
    BareListed(OP_RETURN);
    if t.Return? && !MirRun.ReturnsUnit(body) {
      var load := Instr(OP_LOAD_LOCAL, U32Le(0));
      LoadZeroListed();
      EncodeAppend([load], [Instr(OP_RETURN, [])]);
      assert [load] + [Instr(OP_RETURN, [])] == TerminatorInstrs(body, t);
    }
  }

  lemma LoadZeroListed()
    ensures var load := Instr(OP_LOAD_LOCAL, U32Le(0)); StraightLine(load) && Encode([load]) == LoadLocalBytes(0)
  {
    OperandListed(Copy(Place(0, [])));
  }

  /** The instructions of a block that does not jump. */
  function Listing(body: Body, bb: BasicBlock): seq<Instr>
    requires MirRun.ScalarBlock(bb) && JumpFree(bb.terminator)
  {
    StatementsInstrs(bb.statements) + TerminatorInstrs(body, bb.terminator)
  }

  lemma BlockListed(body: Body, bb: BasicBlock)
    requires MirRun.ScalarBlock(bb) && JumpFree(bb.terminator)
    ensures AllStraight(Listing(body, bb)) && Encode(Listing(body, bb)) == BlockBytes(body, bb)
  {
    hide Encode, StraightLine, StatementsInstrs, TerminatorInstrs, StatementsBytes, TerminatorBytes;
    StatementsListed(bb.statements);
    TerminatorListed(body, bb.terminator);
    EncodeAppend(StatementsInstrs(bb.statements), TerminatorInstrs(body, bb.terminator));
    AppendStraight(StatementsInstrs(bb.statements), TerminatorInstrs(body, bb.terminator));
  }

  lemma {:induction false} NoLoadsInStatements(ss: seq<Statement>)
    requires forall s <- ss :: MirRun.ScalarStatement(s)
    ensures forall i <- StatementsInstrs(ss) :: i.op != OP_DEREF
  {
    if ss != [] {
      NoLoadsInStatements(ss[1..]);
    }
  }

  lemma NoLoads(body: Body, bb: BasicBlock)
    requires MirRun.ScalarBlock(bb) && JumpFree(bb.terminator)
    ensures !Loads(Listing(body, bb))
  {
    hide StatementsInstrs;
    NoLoadsInStatements(bb.statements);
  }

  lemma StraightSized(instrs: seq<Instr>)
    requires AllStraight(instrs)
    ensures forall i <- instrs :: Sized(i)
  {
    hide Sized, IsFoldable;
  }
}
