/** What every run of the machine keeps: bounded depth, valid frames, isolated callers. */
module VmSafety {
  import opened Int64
  import opened Wire
  import opened Wrappers
  import opened VmSpec

  /** Depth within the limit and every frame running a function of the module. */
  ghost predicate Inv(m: Module, s: State) {
    && |s.frames| <= MAX_CALL_DEPTH
    && forall i :: 0 <= i < |s.frames| ==> s.frames[i].func < |m.functions|
  }

  lemma StartInv(m: Module)
    ensures Start(m).Ok? ==> Inv(m, Start(m).value) && |Start(m).value.frames| == 1
  {
  }

  /** Only the top frame differs, and it still runs the same function. */
  ghost predicate TopOnly(s: State, t: State) {
    && s.frames != []
    && |t.frames| == |s.frames|
    && t.frames[..|s.frames| - 1] == s.frames[..|s.frames| - 1]
    && Top(t).func == Top(s).func
    && Top(t).destLocal == Top(s).destLocal
    && Top(t).resumeTarget == Top(s).resumeTarget
  }

  lemma DataTopOnly(m: Module, s: State, op: Opcode)
    requires Ready(m, s)
    requires op.LoadConst? || op.LoadLocal? || op.StoreLocal? || op.LoadLocalAddr? || op.StoreField? || op.Deref?
             || op.Drop?
    ensures ExecData(m, s, op).Next? ==> TopOnly(s, ExecData(m, s, op).state)
  {
    hide Mirror;
  }

  lemma ValueTopOnly(m: Module, s: State, op: Opcode)
    requires Ready(m, s)
    requires IsBinary(op) || op.Not? || op.Neg? || op.Cast? || op.Len? || op.Discriminant? || op.Aggregate?
             || op.Repeat?
    ensures ExecValue(m, s, op).Next? ==> TopOnly(s, ExecValue(m, s, op).state)
  {
    hide Binop;
  }

  lemma JumpTopOnly(m: Module, s: State, op: Opcode)
    requires Ready(m, s)
    requires op.Jump? || op.JumpIf? || op.SwitchInt? || op.Assert? || op.Trap?
    ensures ExecJump(m, s, op).Next? ==> TopOnly(s, ExecJump(m, s, op).state)
  {
    hide SwitchScan;
  }

  /** A call pushes a fresh frame and moves the caller's pc past the operands. */
  ghost predicate Called(m: Module, s: State, t: State) {
    && s.frames != []
    && |t.frames| == |s.frames| + 1 <= MAX_CALL_DEPTH
    && t.frames[..|s.frames| - 1] == s.frames[..|s.frames| - 1]
    && (var caller := t.frames[|s.frames| - 1]; caller == Top(s).(pc := caller.pc))
    && Top(t).pc == 0
    && Top(t).func < |m.functions|
  }

  lemma CallCalled(m: Module, s: State)
    requires Ready(m, s)
    ensures ExecCall(m, s).Next? ==> Called(m, s, ExecCall(m, s).state)
  {
    hide FreshFrame;
    FreshFrameFields();
  }

  lemma FreshFrameFields()
    ensures forall f, func, args, resume, dest {:trigger FreshFrame(f, func, args, resume, dest)} ::
              FreshFrame(f, func, args, resume, dest).func == func && FreshFrame(f, func, args, resume, dest).pc == 0
  {
  }

  lemma ReturnReturned(m: Module, s: State)
    requires Inv(m, s) && s.frames != []
    ensures ExecReturn(m, s).Next? ==> Returned(m, s, ExecReturn(m, s).state)
  {
  }

  lemma ExecFrames(m: Module, s: State, op: Opcode)
    requires Inv(m, s) && s.frames != [] && Exec(m, s, op).Next?
    ensures var t := Exec(m, s, op).state; TopOnly(s, t) || Called(m, s, t) || Returned(m, s, t)
  {
    hide ExecData, ExecValue, ExecJump, ExecCall, ExecReturn, TopOnly, Called, Returned;
    match op
    case LoadConst | LoadLocal | StoreLocal | LoadLocalAddr | StoreField | Deref | Drop => DataTopOnly(m, s, op);
    case Jump | JumpIf | SwitchInt | Assert | Trap => JumpTopOnly(m, s, op);
    case Return => ReturnReturned(m, s);
    case Call | CallIndirect => CallCalled(m, s);
    case _ => ValueTopOnly(m, s, op);
  }

  /** A step stays in the top frame, calls, or returns. */
  lemma StepFrames(m: Module, s: State)
    requires Inv(m, s) && Step(m, s).Next?
    ensures var t := Step(m, s).state;
            Inv(m, t) && s.frames != [] && (TopOnly(s, t) || Called(m, s, t) || Returned(m, s, t))
  {
    hide Exec, FromByte;
    var code, pc := m.functions[Top(s).func].code, Top(s).pc;
    var s1 := WithPc(s, pc + 1);
    ExecFrames(m, s1, FromByte(code[pc]).value);
    var t := Step(m, s).state;
    KeepsInv(m, s1, t);
    assert s1.frames[..|s.frames| - 1] == s.frames[..|s.frames| - 1];
    if Returned(m, s1, t) {
      assert s1.frames[..|s.frames| - 2] == s.frames[..|s.frames| - 2];
    }
  }

  lemma KeepsInv(m: Module, s: State, t: State)
    requires Inv(m, s) && (TopOnly(s, t) || Called(m, s, t) || Returned(m, s, t))
    ensures Inv(m, t)
  {
    forall i | 0 <= i < |t.frames|
      ensures t.frames[i].func < |m.functions|
    {
      if i < |s.frames| - 2 {
        assert s.frames[..|s.frames| - 2][i] == s.frames[i];
        assert t.frames[..|s.frames| - 2][i] == t.frames[i];
      } else if i == |s.frames| - 2 && !Returned(m, s, t) {
        assert s.frames[..|s.frames| - 1][i] == s.frames[i];
        assert t.frames[..|s.frames| - 1][i] == t.frames[i];
      }
      if i < |s.frames| - 1 && !Returned(m, s, t) {
        assert s.frames[..|s.frames| - 1][i] == s.frames[i];
        assert t.frames[..|s.frames| - 1][i] == t.frames[i];
      }
    }
  }

  /** A return writes the caller's destination slot and pc, and nothing else of any frame. */
  ghost predicate Returned(m: Module, s: State, t: State)
    requires Inv(m, s)
  {
    var n := |s.frames|;
    && n >= 2
    && |t.frames| == n - 1
    && t.frames[..n - 2] == s.frames[..n - 2]
    && var caller, callee, after := s.frames[n - 2], s.frames[n - 1], t.frames[n - 2];
       && after == caller.(locals := after.locals, pc := ResolveTarget(m.functions[caller.func], callee.resumeTarget))
       && |after.locals| == |caller.locals|
       && (forall i :: 0 <= i < |caller.locals| && i != callee.destLocal ==> after.locals[i] == caller.locals[i])
       && (callee.destLocal < |caller.locals| ==>
             after.locals[callee.destLocal] == if s.stack == [] then Int(0) else Peek(s, 0))
  }

  /** The invariant holds of every state a run of the module reaches. */
  lemma {:induction false} RunInv(m: Module, s: State, k: nat)
    requires Inv(m, s)
    ensures Steps(m, s, k).Next? ==> Inv(m, Steps(m, s, k).state)
    decreases k
  {
    hide Step, Inv;
    if k > 0 && Step(m, s).Next? {
      StepFrames(m, s);
      RunInv(m, Step(m, s).state, k - 1);
    }
  }

  lemma ReachableInv(m: Module, k: nat)
    requires Start(m).Ok?
    ensures Steps(m, Start(m).value, k).Next? ==> Inv(m, Steps(m, Start(m).value, k).state)
  {
    hide Step;
    StartInv(m);
    RunInv(m, Start(m).value, k);
  }

  lemma {:induction false} StepsShift(m: Module, s: State, k: nat)
    requires Steps(m, s, k).Next?
    ensures Steps(m, s, k + 1) == Step(m, Steps(m, s, k).state)
    decreases k
  {
    hide Step;
    if k == 0 {
      assert Steps(m, s, 1) == match Step(m, s) case Next(t) => Steps(m, t, 0) case Done(r) => Done(r);
    } else {
      StepsShift(m, Step(m, s).state, k - 1);
    }
  }

  /** In a run of j steps the depth never falls to d. */
  ghost predicate StaysAbove(m: Module, s: State, j: nat, d: nat) {
    forall i: nat :: i <= j ==> Steps(m, s, i).Next? && |Steps(m, s, i).state.frames| > d
  }

  /** Both frames return to the same slot and block of their caller. */
  ghost predicate SameReturn(a: Frame, b: Frame) {
    a.destLocal == b.destLocal && a.resumeTarget == b.resumeTarget
  }

  lemma {:induction false} BelowUnchanged(m: Module, s: State, j: nat, d: nat)
    requires Inv(m, s) && StaysAbove(m, s, j, d)
    ensures Steps(m, s, j).Next? && |s.frames| > d && |Steps(m, s, j).state.frames| > d
    ensures Steps(m, s, j).state.frames[..d] == s.frames[..d]
    ensures SameReturn(s.frames[d], Steps(m, s, j).state.frames[d])
    decreases j
  {
    hide Step, Inv;
    assert Steps(m, s, 0) == Next(s);
    assert Steps(m, s, j).Next?;
    if j > 0 {
      assert StaysAbove(m, s, j - 1, d);
      BelowUnchanged(m, s, j - 1, d);
      RunInv(m, s, j - 1);
      StepsShift(m, s, j - 1);
      var u, t := Steps(m, s, j - 1).state, Steps(m, s, j).state;
      StepFrames(m, u);
      PrefixKept(m, u, t, d);
    }
  }

  lemma PrefixKept(m: Module, s: State, t: State, d: nat)
    requires Inv(m, s) && (TopOnly(s, t) || Called(m, s, t) || Returned(m, s, t))
    requires |s.frames| > d && |t.frames| > d
    ensures t.frames[..d] == s.frames[..d]
    ensures SameReturn(s.frames[d], t.frames[d])
  {
    var n := if Returned(m, s, t) then |s.frames| - 2 else |s.frames| - 1;
    assert t.frames[..d] == t.frames[..n][..d];
    assert s.frames[..d] == s.frames[..n][..d];
    if d < n {
      assert t.frames[d] == t.frames[..n][d] == s.frames[..n][d] == s.frames[d];
    }
  }

  /** The depth rises by one, stays above d for j further steps, then comes back to d. */
  ghost predicate CallAndReturn(m: Module, s: State, j: nat) {
    && Inv(m, s)
    && Step(m, s).Next?
    && var d, c := |s.frames|, Step(m, s).state;
       && |c.frames| == d + 1
       && StaysAbove(m, c, j, d)
       && Steps(m, c, j + 1).Next?
       && |Steps(m, c, j + 1).state.frames| == d
  }

  /**
  Between a call and its matching return every frame below the caller is untouched, and the caller
  itself differs from what it was at the call only in its destination slot and its pc.
  */
  lemma CallReturn(m: Module, s: State, j: nat)
    requires CallAndReturn(m, s, j)
    ensures s.frames != []
    ensures var d, c := |s.frames|, Step(m, s).state;
            && c.frames != [] && Steps(m, c, j).Next?
            && var callee, u, t := Top(c), Steps(m, c, j).state, Steps(m, c, j + 1).state;
               && t.frames != []
               && t.frames[..d - 1] == s.frames[..d - 1]
               && Top(t) ==
                  Top(s).(locals := Top(t).locals, pc := ResolveTarget(m.functions[Top(s).func], callee.resumeTarget))
               && |Top(t).locals| == |Top(s).locals|
               && (forall i :: 0 <= i < |Top(s).locals| && i != callee.destLocal ==>
                   Top(t).locals[i] == Top(s).locals[i])
               && (callee.destLocal < |Top(s).locals| ==>
                     Top(t).locals[callee.destLocal] == if u.stack == [] then Int(0) else Peek(u, 0))
  {
    hide Step;
    var d, c := |s.frames|, Step(m, s).state;
    StepFrames(m, s);
    assert Called(m, s, c);
    BelowUnchanged(m, c, j, d);
    RunInv(m, c, j);
    StepsShift(m, c, j);
    var u, t := Steps(m, c, j).state, Steps(m, c, j + 1).state;
    StepFrames(m, u);
    assert Returned(m, u, t);
    assert u.frames[d - 1] == u.frames[..d][d - 1] == c.frames[..d][d - 1] == c.frames[d - 1];
    assert u.frames[..d - 1] == u.frames[..d][..d - 1] == c.frames[..d][..d - 1] == c.frames[..d - 1];
  }

  /** The slot and block a callee returns to are the operands of the call instruction. */
  lemma CallOperands(m: Module, s: State)
    requires Inv(m, s) && Step(m, s).Next? && |Step(m, s).state.frames| == |s.frames| + 1
    ensures s.frames != []
    ensures var code, pc := m.functions[Top(s).func].code, Top(s).pc;
            && (FromByte(code[pc]) == Some(Call) || FromByte(code[pc]) == Some(CallIndirect))
            && FetchU32(code, pc + 5) == Some(Top(Step(m, s).state).destLocal)
            && FetchU32(code, pc + 9) == Some(Top(Step(m, s).state).resumeTarget)
  {
    hide ExecData, ExecValue, ExecJump, TopOnly, Returned;
    var code, pc := m.functions[Top(s).func].code, Top(s).pc;
    var s1, op := WithPc(s, pc + 1), FromByte(code[pc]).value;
    if !op.Call? && !op.CallIndirect? {
      OnlyCallsPush(m, s1, op);
    }
  }

  lemma OnlyCallsPush(m: Module, s: State, op: Opcode)
    requires Inv(m, s) && s.frames != [] && !op.Call? && !op.CallIndirect?
    requires Exec(m, s, op).Next?
    ensures |Exec(m, s, op).state.frames| <= |s.frames|
  {
    hide ExecData, ExecValue, ExecJump, ExecReturn;
    match op
    case LoadConst | LoadLocal | StoreLocal | LoadLocalAddr | StoreField | Deref | Drop => DataTopOnly(m, s, op);
    case Jump | JumpIf | SwitchInt | Assert | Trap => JumpTopOnly(m, s, op);
    case Return => ReturnReturned(m, s);
    case _ => ValueTopOnly(m, s, op);
  }

  /** The only host panics a run can meet are a cast or assert opcode that ends the code. */
  lemma PanicOnlyAtEnd(m: Module, s: State)
    requires Inv(m, s) && Step(m, s) == Stop(HostPanic)
    ensures s.frames != []
    ensures var code, pc := m.functions[Top(s).func].code, Top(s).pc;
            pc + 1 == |code| && (FromByte(code[pc]) == Some(Cast) || FromByte(code[pc]) == Some(Assert))
  {
    hide SwitchScan, Binop, FetchU32, FetchI64, ResolveTarget, SetLocal;
  }
}
