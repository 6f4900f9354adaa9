/**
What single steps of the machine do, told from the operand stack and the bytes of the code alone
(crates/glyim-bytecode-vm/src/lib.rs).
*/
module VmLaws {
  import opened Int64
  import opened Wire
  import opened Wrappers
  import opened VmSpec
  import B = BitLaws
  import ML = MirLaws
  import M = Mir
  import MirRun
  import VS = VmSafety

  ghost predicate Fetches(m: Module, s: State, op: Opcode) {
    && s.frames != [] && Top(s).func < |m.functions|
    && Top(s).pc < |m.functions[Top(s).func].code| && FromByte(m.functions[Top(s).func].code[Top(s).pc]) == Some(op)
  }

  function CodeHere(m: Module, s: State): Bytes
    requires s.frames != [] && Top(s).func < |m.functions|
  {
    m.functions[Top(s).func].code
  }

  /** A word of the code is its four bytes, least significant first. */
  lemma WordMeans(code: Bytes, pc: nat)
    ensures FetchU32(code, pc).Some? <==> pc + 4 <= |code|
    ensures pc + 4 <= |code| ==> FetchU32(code, pc).value == ML.Word32(code[pc..pc + 4])
  {
    hide ML.Word32;
    if pc + 4 <= |code| {
      ML.FromLe4(code[pc..pc + 4]);
    }
  }

  /** The operands of a call: number of arguments, destination and block to resume at. */
  ghost predicate CallWords(m: Module, s: State, argc: nat, dest: nat, resume: nat) {
    && s.frames != [] && Top(s).func < |m.functions|
    && var code, pc := CodeHere(m, s), Top(s).pc;
       && pc + 13 <= |code|
       && ML.Word32(code[pc + 1..pc + 5]) == argc && ML.Word32(code[pc + 5..pc + 9]) == dest
       && ML.Word32(code[pc + 9..pc + 13]) == resume
  }

  /** The function a call names: the operand below the arguments, anything but a number standing for 0. */
  predicate Names(v: Value, func: nat) {
    if v.Tuple? then func == 0
    else if v.v >= 0 then func == v.v
    else func == v.v + 0x1_0000_0000_0000_0000
  }

  /** The callee's frame: arguments first to last in the first locals, zeros in the rest and in memory. */
  ghost predicate FreshCallee(f: Function, fr: Frame, args: seq<Value>) {
    && |fr.locals| == (if f.nLocals > |args| then f.nLocals else |args|)
    && (forall k :: 0 <= k < |args| ==> fr.locals[k] == args[k])
    && (forall k :: |args| <= k < |fr.locals| ==> fr.locals[k] == Int(0))
    && |fr.mem| == (if fr.locals == [] then 8 else 8 * |fr.locals|)
    && (forall k :: 0 <= k < |fr.mem| ==> fr.mem[k] == Int(0))
    && fr.pc == 0
  }

  /** The state after a call with that many arguments. */
  ghost predicate Entered(m: Module, s: State, t: State, argc: nat, dest: nat, resume: nat) {
    var n, d := |s.stack|, |s.frames|;
    && s.frames != [] && argc + 1 <= n
    && t.stack == s.stack[..n - argc - 1]
    && |t.frames| == d + 1 && t.frames[..d - 1] == s.frames[..d - 1]
    && t.frames[d - 1] == Top(s).(pc := Top(s).pc + 13)
    && var callee := t.frames[d];
       && callee.func < |m.functions| && Names(s.stack[n - argc - 1], callee.func)
       && FreshCallee(m.functions[callee.func], callee, s.stack[n - argc..])
       && callee.destLocal == dest && callee.resumeTarget == resume
  }

  lemma FreshIsFresh(f: Function, func: nat, args: seq<Value>, resume: u32, dest: nat)
    ensures var fr := FreshFrame(f, func, args, resume, dest);
            FreshCallee(f, fr, args) && fr.func == func && fr.resumeTarget == resume && fr.destLocal == dest
  {
  }

  lemma Callable(m: Module, s: State)
    requires s.frames != [] && Ready(m, s)
    ensures ExecCall(m, s).Next? ==>
              && FetchU32(Fn(m, s).code, Top(s).pc).Some? && FetchU32(Fn(m, s).code, Top(s).pc + 4).Some?
              && FetchU32(Fn(m, s).code, Top(s).pc + 8).Some?
              && var argc, dest, resume :=
                   FetchU32(Fn(m, s).code, Top(s).pc).value, FetchU32(Fn(m, s).code, Top(s).pc + 4).value,
                   FetchU32(Fn(m, s).code, Top(s).pc + 8).value;
                 && |s.stack| >= argc + 1
                 && var callee := AsUsize(AsInt(s.stack[|s.stack| - 1 - argc]));
                    && callee < |m.functions|
                    && ExecCall(m, s).state ==
                       State(s.stack[..|s.stack| - (argc + 1)],
                             s.frames[|s.frames| - 1 := Top(s).(pc := Top(s).pc + 12)]
                             + [FreshFrame(m.functions[callee], callee, s.stack[|s.stack| - argc..], resume, dest)])
  {
    hide FreshFrame, FetchU32;
  }

  lemma PushIsCall(m: Module, s: State)
    requires Step(m, s).Next? && |Step(m, s).state.frames| == |s.frames| + 1 && VS.Inv(m, s)
    ensures Fetches(m, s, Call) || Fetches(m, s, CallIndirect)
    ensures Step(m, s) == ExecCall(m, WithPc(s, Top(s).pc + 1))
  {
    hide ExecCall, ExecData, ExecValue, ExecJump, ExecReturn, FromByte;
    var code, pc := CodeHere(m, s), Top(s).pc;
    var op := FromByte(code[pc]).value;
    if !op.Call? && !op.CallIndirect? {
      VS.OnlyCallsPush(m, WithPc(s, pc + 1), op);
    }
  }

  /**
  A step that pushes a frame is a call: it takes the arguments and, below them, the function from the
  stack and puts the arguments in order into the callee's first locals.
  */
  lemma CallArguments(m: Module, s: State)
    requires Step(m, s).Next? && |Step(m, s).state.frames| == |s.frames| + 1
    requires forall i :: 0 <= i < |s.frames| ==> s.frames[i].func < |m.functions|
    requires |s.frames| <= MAX_CALL_DEPTH
    ensures Fetches(m, s, Call) || Fetches(m, s, CallIndirect)
    ensures exists argc, dest, resume ::
              CallWords(m, s, argc, dest, resume) && Entered(m, s, Step(m, s).state, argc, dest, resume)
  {
    hide ExecCall, FreshFrame, FetchU32, Step, FreshCallee, FromByte, ML.Word32;
    PushIsCall(m, s);
    var code, pc := CodeHere(m, s), Top(s).pc;
    var s1 := WithPc(s, pc + 1);
    Callable(m, s1);
    WordMeans(code, pc + 1);
    WordMeans(code, pc + 5);
    WordMeans(code, pc + 9);
    var argc, dest, resume :=
      FetchU32(code, pc + 1).value, FetchU32(code, pc + 5).value, FetchU32(code, pc + 9).value;
    var callee := AsUsize(AsInt(s.stack[|s.stack| - 1 - argc]));
    FreshIsFresh(m.functions[callee], callee, s.stack[|s.stack| - argc..], resume, dest);
    var t := Step(m, s).state;
    assert t.frames[..|s.frames| - 1] == s.frames[..|s.frames| - 1];
    assert CallWords(m, s, argc, dest, resume) && Entered(m, s, t, argc, dest, resume);
  }

  /** A call with its words, operands and a known function in place goes through, below the depth limit. */
  lemma CallGoesThrough(m: Module, s: State, argc: nat, dest: nat, resume: nat, func: nat)
    requires Fetches(m, s, Call) || Fetches(m, s, CallIndirect)
    requires CallWords(m, s, argc, dest, resume) && argc + 1 <= |s.stack| && |s.frames| < 1024
    requires func < |m.functions| && Names(s.stack[|s.stack| - argc - 1], func)
    ensures Step(m, s).Next? && |Step(m, s).state.frames| == |s.frames| + 1
  {
    hide FreshFrame, FetchU32, FromByte, ML.Word32;
    var code, pc := CodeHere(m, s), Top(s).pc;
    WordMeans(code, pc + 1);
    WordMeans(code, pc + 5);
    WordMeans(code, pc + 9);
  }

  // ----- operators -----

  function OperatorOf(op: Opcode): M.BinOp
    requires IsBinary(op)
  {
    match op
    case Add => M.Add
    case Sub => M.Sub
    case Mul => M.Mul
    case Div => M.Div
    case Rem => M.Rem
    case Eq => M.Eq
    case Ne => M.Ne
    case Lt => M.Lt
    case Gt => M.Gt
    case Le => M.LtEq
    case Ge => M.GtEq
    case And => M.And
    case Or => M.Or
    case BitAnd => M.BitAnd
    case BitOr => M.BitOr
    case BitXor => M.BitXor
    case Shl => M.Shl
    case Shr => M.Shr
  }

  /** The number an operand counts as; a tuple counts as 0. */
  function NumberOf(v: Value): i64 {
    if v.Int? then v.v else 0
  }

  lemma OperatorComputes(op: Opcode, a: i64, b: i64)
    requires IsBinary(op)
    ensures Binop(op, a, b).None? <==> ML.Undivided(OperatorOf(op), a, b)
    ensures Binop(op, a, b).Some? ==> ML.Computes(OperatorOf(op), a, b, Binop(op, a, b).value)
  {
    hide ML.Computes, CheckedDiv, CheckedRem, Bitwise, Int64.Shl, Int64.Shr, Wrap, Bool;
    ML.BinaryMeans(OperatorOf(op), a, b);
    SameOperator(op, a, b);
  }

  lemma SameOperator(op: Opcode, a: i64, b: i64)
    requires IsBinary(op)
    ensures MirRun.EvalBinary(OperatorOf(op), a, b) ==
            match Binop(op, a, b) case Some(r) => Ok(r) case None => Err(MirRun.ArithmeticTrap)
  {
    hide CheckedDiv, CheckedRem, Bitwise, Int64.Shl, Int64.Shr, Wrap, Bool;
  }

  /** The top operand is the right one, the one below it the left one; the result takes their place. */
  lemma OperatorStep(m: Module, s: State, op: Opcode)
    requires Fetches(m, s, op) && IsBinary(op)
    ensures |s.stack| < 2 ==> Step(m, s) == Done(Err(StackUnderflow))
    ensures |s.stack| >= 2 ==>
              var n := |s.stack|;
              var a, b := NumberOf(s.stack[n - 2]), NumberOf(s.stack[n - 1]);
              if ML.Undivided(OperatorOf(op), a, b) then Step(m, s) == Done(Err(AbnormalTermination))
              else exists r: i64 ::
                     ML.Computes(OperatorOf(op), a, b, r) &&
                     Step(m, s) == Next(Moved(s, s.stack[..n - 2] + [Int(r)], 1))
  {
    hide Binop, ML.Computes, ML.Undivided, FromByte, OperatorOf, Step, Moved;
    BinaryTurn(m, s, op);
    if |s.stack| >= 2 {
      var n := |s.stack|;
      OperatorComputes(op, NumberOf(s.stack[n - 2]), NumberOf(s.stack[n - 1]));
    }
  }

  lemma BinaryTurn(m: Module, s: State, op: Opcode)
    requires Fetches(m, s, op) && IsBinary(op)
    ensures |s.stack| < 2 ==> Step(m, s) == Stop(StackUnderflow)
    ensures |s.stack| >= 2 ==>
              var n := |s.stack|;
              Step(m, s) == match Binop(op, NumberOf(s.stack[n - 2]), NumberOf(s.stack[n - 1]))
                            case None => Stop(AbnormalTermination)
                            case Some(r) => Next(Moved(s, s.stack[..n - 2] + [Int(r)], 1))
  {
    hide Binop, FromByte, Exec;
    BinaryExec(m, WithPc(s, Top(s).pc + 1), op);
  }

  /** The same frames with that stack, the top one's pc further on. */
  function Moved(s: State, stack: seq<Value>, bytes: nat): State
    requires s.frames != []
  {
    State(stack, s.frames[|s.frames| - 1 := Top(s).(pc := Top(s).pc + bytes)])
  }

  // ----- locals and memory -----

  /** Only these frames' top changed, and of it only locals, memory and pc. */
  predicate SameBelow(s: State, t: State)
    requires s.frames != []
  {
    && t.frames != [] && t.frames == s.frames[|s.frames| - 1 :=
         Top(s).(locals := Top(t).locals, mem := Top(t).mem, pc := Top(t).pc)]
  }

  /** A load pushes the local; a store takes the top into the local and its image in memory. */
  lemma LocalSteps(m: Module, s: State, i: nat)
    requires Fetches(m, s, LoadLocal) || Fetches(m, s, StoreLocal)
    requires Top(s).pc + 5 <= |CodeHere(m, s)|
    requires ML.Word32(CodeHere(m, s)[Top(s).pc + 1..Top(s).pc + 5]) == i
    ensures Fetches(m, s, LoadLocal) ==>
              Step(m, s) == if i < |Top(s).locals| then Next(Moved(s, s.stack + [Top(s).locals[i]], 5))
                            else Done(Err(LocalOutOfBounds(i)))
    ensures Fetches(m, s, StoreLocal) && s.stack == [] ==> Step(m, s) == Done(Err(StackUnderflow))
    ensures Fetches(m, s, StoreLocal) && s.stack != [] && i >= |Top(s).locals| ==>
              Step(m, s) == Done(Err(LocalOutOfBounds(i)))
    ensures Fetches(m, s, StoreLocal) && s.stack != [] && i < |Top(s).locals| ==>
              && Step(m, s).Next?
              && var t, v := Step(m, s).state, s.stack[|s.stack| - 1];
                 && SameBelow(s, t) && Top(t).pc == Top(s).pc + 5 && t.stack == s.stack[..|s.stack| - 1]
                 && Stored(Top(s).locals, Top(t).locals, i, [v])
                 && Stored(Top(s).mem, Top(t).mem, i, [v] + if v.Tuple? then v.elems else [])
  {
    hide FromByte, FetchU32, ML.Word32, Mirror;
    WordMeans(CodeHere(m, s), Top(s).pc + 1);
    if Fetches(m, s, StoreLocal) && s.stack != [] && i < |Top(s).locals| {
      var v := s.stack[|s.stack| - 1];
      StoreImage(Top(s).(pc := Top(s).pc + 5), i, v);
    }
  }

  /** Values written from index i on, as far as there is room, and nothing else changed. */
  predicate Stored(before: seq<Value>, after: seq<Value>, i: nat, vs: seq<Value>) {
    && |after| == |before|
    && (forall k :: 0 <= k < |before| && !(i <= k < i + |vs|) ==> after[k] == before[k])
    && (forall k :: i <= k < i + |vs| && k < |before| ==> after[k] == vs[k - i])
  }

  lemma StoreImage(fr: Frame, i: nat, v: Value)
    requires i < |fr.locals|
    ensures var after := SetLocal(fr, i, v);
            && after == fr.(locals := after.locals, mem := after.mem)
            && Stored(fr.locals, after.locals, i, [v])
            && Stored(fr.mem, after.mem, i, [v] + if v.Tuple? then v.elems else [])
  {
  }

  /** Addresses are slots of memory: a load through one takes its place on the stack. */
  lemma DerefStep(m: Module, s: State, at: nat)
    requires Fetches(m, s, Deref) && s.stack != [] && Names(s.stack[|s.stack| - 1], at)
    ensures Step(m, s) == if at >= |Top(s).mem| then Done(Err(LocalOutOfBounds(at)))
                          else Next(Moved(s, s.stack[..|s.stack| - 1] + [Top(s).mem[at]], 1))
  {
    hide FromByte;
  }

  /** A store takes the address from the top and the value from below it. */
  lemma StoreFieldStep(m: Module, s: State, at: nat)
    requires Fetches(m, s, StoreField) && |s.stack| >= 2 && Names(s.stack[|s.stack| - 1], at)
    ensures at >= |Top(s).mem| ==> Step(m, s) == Done(Err(LocalOutOfBounds(at)))
    ensures at < |Top(s).mem| ==>
              && Step(m, s).Next?
              && var t := Step(m, s).state;
                 && SameBelow(s, t) && t.stack == s.stack[..|s.stack| - 2] && Top(t).locals == Top(s).locals
                 && Stored(Top(s).mem, Top(t).mem, at, [s.stack[|s.stack| - 2]]) && Top(t).pc == Top(s).pc + 1
  {
    hide FromByte;
  }

  // ----- tuples -----

  /** An aggregate takes its operands in the order they were pushed, a repeat as many copies as the top says. */
  lemma TupleSteps(m: Module, s: State, n: nat)
    requires Fetches(m, s, Aggregate) && Top(s).pc + 5 <= |CodeHere(m, s)|
    requires ML.Word32(CodeHere(m, s)[Top(s).pc + 1..Top(s).pc + 5]) == n
    ensures Step(m, s) == if |s.stack| < n then Done(Err(StackUnderflow))
                          else Next(Moved(s, s.stack[..|s.stack| - n] + [Tuple(s.stack[|s.stack| - n..])], 5))
  {
    hide FromByte, FetchU32, ML.Word32;
    WordMeans(CodeHere(m, s), Top(s).pc + 1);
  }

  lemma RepeatStep(m: Module, s: State)
    requires Fetches(m, s, Repeat) && |s.stack| >= 2
    ensures Step(m, s).Next? && |Step(m, s).state.stack| == |s.stack| - 1
    ensures var t, n := Step(m, s).state, |s.stack|;
            && t == Moved(s, s.stack[..n - 2] + [t.stack[n - 2]], 1) && t.stack[n - 2].Tuple?
            && var count, elems := NumberOf(s.stack[n - 1]), t.stack[n - 2].elems;
               && |elems| == (if count < 0 then 0 else count)
               && forall k :: 0 <= k < |elems| ==> elems[k] == s.stack[n - 2]
  {
    hide FromByte;
  }

  /** The number of a tuple's elements; a number has none. */
  function Elements(v: Value): nat {
    match v
    case Tuple(elems) => |elems|
    case Int(_) => 0
  }

  /** The length of a local and the discriminant on the stack are numbers of elements, an address is a local's slot. */
  lemma LengthStep(m: Module, s: State, i: nat)
    requires Fetches(m, s, Len) && Top(s).pc + 5 <= |CodeHere(m, s)|
    requires ML.Word32(CodeHere(m, s)[Top(s).pc + 1..Top(s).pc + 5]) == i
    ensures i >= |Top(s).locals| ==> Step(m, s) == Done(Err(LocalOutOfBounds(i)))
    ensures i < |Top(s).locals| ==>
              exists r: i64 ::
                && B.Congruent(r, Elements(Top(s).locals[i]))
                && Step(m, s) == Next(Moved(s, s.stack + [Int(r)], 5))
  {
    hide FromByte, FetchU32, ML.Word32, B.Congruent, Wrap;
    WordMeans(CodeHere(m, s), Top(s).pc + 1);
    if i < |Top(s).locals| {
      var r := SizeOf(Top(s).locals[i]);
      assert Step(m, s) == Next(Moved(s, s.stack + [Int(r)], 5));
    }
  }

  lemma DiscriminantStep(m: Module, s: State)
    requires Fetches(m, s, Discriminant)
    ensures s.stack == [] ==> Step(m, s) == Done(Err(StackUnderflow))
    ensures s.stack != [] ==>
              exists r: i64 ::
                && B.Congruent(r, Elements(s.stack[|s.stack| - 1]))
                && Step(m, s) == Next(Moved(s, s.stack[..|s.stack| - 1] + [Int(r)], 1))
  {
    hide FromByte, B.Congruent, Wrap;
    if s.stack != [] {
      var r := SizeOf(s.stack[|s.stack| - 1]);
      assert Step(m, s) == Next(Moved(s, s.stack[..|s.stack| - 1] + [Int(r)], 1));
    }
  }

  lemma AddressStep(m: Module, s: State, i: i64)
    requires Fetches(m, s, LoadLocalAddr) && Top(s).pc + 5 <= |CodeHere(m, s)|
    requires ML.Word32(CodeHere(m, s)[Top(s).pc + 1..Top(s).pc + 5]) == i
    ensures Step(m, s) == Next(Moved(s, s.stack + [Int(i)], 5))
  {
    hide FromByte, FetchU32, ML.Word32;
    WordMeans(CodeHere(m, s), Top(s).pc + 1);
  }

  lemma SizeOf(v: Value) returns (r: i64)
    ensures r == if v.Tuple? then Wrap(|v.elems|) else 0
    ensures B.Congruent(r, Elements(v))
  {
    r := if v.Tuple? then Wrap(|v.elems|) else 0;
    B.WrapIs(Elements(v), r);
  }
}
