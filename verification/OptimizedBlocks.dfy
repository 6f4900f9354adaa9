/**
Compiling with the peephole pass on: the pass shortens code but leaves the recorded block offsets as
they are, so it is right when it changes nothing ahead of the last block (crates/glyim-codegen/src/lib.rs).
*/
module OptimizedBlocks {
  import opened Int64
  import opened Wire
  import opened Wrappers
  import opened CodegenSpec
  import opened Peephole
  import opened PeepholeCorrectness
  import opened DecodeCorrectness
  import opened Mir
  import opened CC = CompilerCorrectness
  import MirRun
  import V = VmSpec

  // ----- a part the pass leaves alone -----

  /** The turn of the pass at k puts out the instruction at k. */
  predicate KeptAt(instrs: seq<Instr>, k: nat, flags: seq<bool>)
    requires WholeConstants(instrs)
  {
    if AtFold(instrs, k, flags) then
      FoldIntBinop(instrs[k + 2].op, ConstAt(instrs, k), ConstAt(instrs, k + 1)).NotFoldable?
    else !AtDoubleNeg(instrs, k)
  }

  predicate KeptUntil(instrs: seq<Instr>, k: nat, end: nat, flags: seq<bool>)
    requires WholeConstants(instrs) && end <= |instrs|
    decreases end - k
  {
    k >= end ||
    (&& KeptAt(instrs, k, flags)
     && KeptUntil(instrs, k + 1, end, if instrs[k].op == OP_LOAD_CONST then Tail(flags) else flags))
  }

  lemma {:induction false} KeptPrefix(instrs: seq<Instr>, k: nat, end: nat, flags: seq<bool>)
    requires WholeConstants(instrs) && k <= end <= |instrs| && KeptUntil(instrs, k, end, flags)
    requires Optimize(instrs, k, flags).Some?
    ensures var rest := Optimize(instrs, end, FlagsAt(instrs, k, end, flags));
            rest.Some? && Optimize(instrs, k, flags).value == instrs[k..end] + rest.value
    decreases end - k
  {
    hide FoldIntBinop, IsFoldable;
    if k < end {
      var f := if instrs[k].op == OP_LOAD_CONST then Tail(flags) else flags;
      assert Optimize(instrs, k, flags) == Keep(instrs[k], Optimize(instrs, k + 1, f));
      KeptPrefix(instrs, k + 1, end, f);
      assert instrs[k..end] == [instrs[k]] + instrs[k + 1..end];
    }
  }

  /** What the pass does to a suffix depends on the suffix alone. */
  lemma {:induction false} OptimizeSuffix(pre: seq<Instr>, tail: seq<Instr>, j: nat, flags: seq<bool>)
    requires WholeConstants(pre + tail) && WholeConstants(tail) && j <= |tail|
    ensures Optimize(pre + tail, |pre| + j, flags) == Optimize(tail, j, flags)
    decreases |tail| - j
  {
    hide FoldIntBinop, IsFoldable;
    var all, k := pre + tail, |pre| + j;
    assert forall i :: 0 <= i < |tail| ==> all[|pre| + i] == tail[i];
    if j < |tail| {
      assert AtFold(all, k, flags) <==> AtFold(tail, j, flags);
      assert AtDoubleNeg(all, k) <==> AtDoubleNeg(tail, j);
      OptimizeSuffix(pre, tail, j + 1, flags);
      OptimizeSuffix(pre, tail, j + 1, Tail(flags));
      if j + 2 <= |tail| {
        OptimizeSuffix(pre, tail, j + 2, flags);
      }
      if j + 3 <= |tail| {
        OptimizeSuffix(pre, tail, j + 3, Tail(Tail(flags)));
      }
    }
  }

  /** The pass makes code no longer. */
  lemma {:induction false} NoLonger(instrs: seq<Instr>, k: nat, flags: seq<bool>)
    requires WholeConstants(instrs) && k <= |instrs| && Optimize(instrs, k, flags).Some?
    ensures |Encode(Optimize(instrs, k, flags).value)| <= |Encode(instrs[k..])|
    decreases |instrs| - k
  {
    hide FoldIntBinop, IsFoldable, Encode;
    if k == |instrs| {
      assert instrs[k..] == [];
    } else {
      EncodeFirst(instrs, k);
      if AtFold(instrs, k, flags)
        && FoldIntBinop(instrs[k + 2].op, ConstAt(instrs, k), ConstAt(instrs, k + 1)).Folded? {
        EncodeFirst(instrs, k + 1);
        EncodeFirst(instrs, k + 2);
        NoLonger(instrs, k + 3, Tail(Tail(flags)));
        var v := FoldIntBinop(instrs[k + 2].op, ConstAt(instrs, k), ConstAt(instrs, k + 1)).value;
        KeepLonger(Instr(OP_LOAD_CONST, I64Le(v)), Optimize(instrs, k + 3, Tail(Tail(flags))).value);
      } else if AtDoubleNeg(instrs, k) {
        EncodeFirst(instrs, k + 1);
        NoLonger(instrs, k + 2, flags);
      } else {
        var f := if instrs[k].op == OP_LOAD_CONST then Tail(flags) else flags;
        assert Optimize(instrs, k, flags) == Keep(instrs[k], Optimize(instrs, k + 1, f));
        NoLonger(instrs, k + 1, f);
        KeepLonger(instrs[k], Optimize(instrs, k + 1, f).value);
      }
    }
  }

  lemma KeepLonger(i: Instr, rest: seq<Instr>)
    ensures |Encode([i] + rest)| == 1 + |i.operand| + |Encode(rest)|
  {
    hide Encode;
    EncodeAppend([i], rest);
    EncodeOne(i);
  }

  lemma EncodeFirst(instrs: seq<Instr>, k: nat)
    requires k < |instrs|
    ensures |Encode(instrs[k..])| == 1 + |instrs[k].operand| + |Encode(instrs[k + 1..])|
  {
    assert instrs[k..] == [instrs[k]] + instrs[k + 1..];
    KeepLonger(instrs[k], instrs[k + 1..]);
  }

  // ----- bodies whose last block alone is changed -----

  /** The last block only returns or traps. */
  predicate EndsPlainly(body: Body) {
    && MirRun.ScalarBody(body) && body.blocks != []
    && body.blocks[|body.blocks| - 1] in body.blocks
    && JumpFree(body.blocks[|body.blocks| - 1].terminator)
  }

  function LastBlock(body: Body): BasicBlock
    requires body.blocks != []
  {
    body.blocks[|body.blocks| - 1]
  }

  /** The bytes ahead of the last block. */
  function Ahead(body: Body): Bytes
    requires EndsPlainly(body)
  {
    CodeOf(body, |body.blocks| - 1)
  }

  /**
  The decoder gives back what stands ahead of the last block, and then the block; and the pass folds
  nothing and cancels no negations in the first part.
  */
  predicate KeepsAhead(body: Body, flags: seq<bool>)
    requires EndsPlainly(body)
  {
    var decoded := DecodeBytecode(CodeOf(body, |body.blocks|));
    var tail := Listing(body, LastBlock(body));
    && decoded.Some? && WholeConstants(decoded.value) && |tail| <= |decoded.value|
    && var k := |decoded.value| - |tail|;
       && decoded.value[k..] == tail && Encode(decoded.value[..k]) == Ahead(body)
       && KeptUntil(decoded.value, 0, k, flags)
  }

  /** The module of the body with other bytes for its code; offsets and locals are the compiler's. */
  function Optimized(body: Body, code: Bytes): V.Module
    requires MirRun.ScalarBody(body)
  {
    V.Module([Compile(body).(code := code)], 0)
  }

  /** Then only the last block changes, and as if it had been optimised alone. */
  lemma OnlyLastChanges(body: Body, flags: seq<bool>) returns (rest: seq<bool>)
    requires EndsPlainly(body) && KeepsAhead(body, flags) && OptimizeBytes(CodeOf(body, |body.blocks|), flags).Some?
    ensures var tail := Listing(body, LastBlock(body));
            && AllStraight(tail) && WholeConstants(tail) && Optimize(tail, 0, rest).Some?
            && OptimizeBytes(CodeOf(body, |body.blocks|), flags).value ==
               Ahead(body) + Encode(Optimize(tail, 0, rest).value)
  {
    hide Encode, Optimize, StraightLine, CodeOf, DecodeBytecode, Listing, KeptUntil, FlagsAt, WholeConstants;
    var all := DecodeBytecode(CodeOf(body, |body.blocks|)).value;
    var tail := Listing(body, LastBlock(body));
    var k := |all| - |tail|;
    BlockListed(body, LastBlock(body));
    StraightWhole(tail);
    assert all == all[..k] + tail;
    rest := FlagsAt(all, 0, k, flags);
    KeptPrefix(all, 0, k, flags);
    OptimizeSuffix(all[..k], tail, 0, rest);
    assert all[0..k] == all[..k];
    EncodeAppend(all[..k], Optimize(tail, 0, rest).value);
  }

  // ----- the machine on the optimised code -----

  /** A module whose code agrees with the body's ahead of the last block, where `out` stands instead. */
  ghost predicate TailReplaced(m: V.Module, fr: V.Frame, body: Body, out: seq<Instr>) {
    && EndsPlainly(body) && Runs(m, fr, body) && m.functions[fr.func].code == Ahead(body) + Encode(out)
  }

  /** The original block and its replacement give the same result from every state at the block's start. */
  ghost predicate SameFrom(body: Body, out: seq<Instr>, c: Core)
    requires EndsPlainly(body)
  {
    var tail := Listing(body, LastBlock(body));
    && AllStraight(tail) && AllStraight(out)
    && (RunList(tail, c) != Err(V.StackUnderflow) ==> RunList(out, c) == RunList(tail, c))
  }

  lemma HereIsCore(s: V.State, fr: V.Frame, pc: nat, locals: seq<i64>)
    requires Here(s, [], fr, pc, locals, [])
    ensures s.frames != []
    ensures var c := Core([], V.Top(s)); s == AtPc(c, pc) && c.fr.func == fr.func && AllInts(c, false)
  {
    var c := Core([], V.Top(s));
    assert c.fr.(pc := pc) == c.fr;
    assert [] + [V.Top(s)] == [V.Top(s)];
  }

  lemma LastBlockCode(body: Body)
    requires EndsPlainly(body)
    ensures var tail := Listing(body, LastBlock(body));
            CodeOf(body, |body.blocks|) == Ahead(body) + Encode(tail) && AllStraight(tail)
  {
    hide Encode, StraightLine, Listing, BlockBytes;
    BlockListed(body, LastBlock(body));
  }

  /** The last block's instructions end with what MIR makes of the block. */
  lemma TailIsBlock(body: Body, fr: V.Frame, s: V.State, locals: seq<i64>)
    requires EndsPlainly(body) && RunsCompiled(Program(body), fr, body)
    requires Here(s, [], fr, |Ahead(body)|, locals, [])
    ensures var last, tail := |body.blocks| - 1, Listing(body, LastBlock(body));
            var o := MirRun.ExecBlock(body, last, locals);
            && AllStraight(tail) && Final(o)
            && RunList(tail, Core([], V.Top(s))) == ResultOf(o) != Err(V.StackUnderflow)
  {
    hide V.Steps, V.Step, CodeOf, RunList, StraightLine, Encode, Listing, Here, Runs, MirRun.ExecBlock;
    HereIsCore(s, fr, |Ahead(body)|, locals);
    var m, tail, c := Program(body), Listing(body, LastBlock(body)), Core([], V.Top(s));
    var last := |body.blocks| - 1;
    LastBlockCode(body);
    SameCode(body, fr);
    CodeRun(m, Ahead(body), tail, c);
    BlockAtOffset(body, last);
    var k := BlockSim(m, s, [], fr, locals, body, last);
    PlainEnd(body, locals);
    var n := |tail| + 1;
    DoneIsFinal(m, s, if k < n then k else n, if k < n then n else k);
  }

  lemma SameCode(body: Body, fr: V.Frame)
    requires EndsPlainly(body) && RunsCompiled(Program(body), fr, body)
    ensures fr.func < |Program(body).functions| && Program(body).functions[fr.func].code == CodeOf(body, |body.blocks|)
    ensures Runs(Program(body), fr, body) && Callers(Program(body), [])
  {
    hide CodeOf;
  }

  lemma PlainEnd(body: Body, locals: seq<i64>)
    requires EndsPlainly(body)
    ensures var o := MirRun.ExecBlock(body, |body.blocks| - 1, locals);
            Final(o) && ResultOf(o) != Err(V.StackUnderflow)
  {
    hide MirRun.ExecStatements;
  }

  /** Whole runs of the optimised code, as for the compiler's own. */
  lemma {:induction false} RunSimOptimized(m: V.Module, s: V.State, fr: V.Frame, locals: seq<i64>, body: Body, b: nat,
                                           n: nat, out: seq<Instr>) returns (k: nat)
    requires TailReplaced(m, fr, body, out) && RunsCompiled(Program(body), fr, body)
    requires forall c :: AllInts(c, false) ==> SameFrom(body, out, c)
    requires b < |body.blocks| && Here(s, [], fr, |CodeOf(body, b)|, locals, [])
    ensures EndsAs(m, V.Steps(m, s, k), [], fr, body, MirRun.Run(body, MirRun.At(b, locals), n))
    ensures MirRun.Run(body, MirRun.At(b, locals), n).At? ==> k >= n
    decreases n
  {
    hide V.Step, V.Steps, CodeOf, Here, MirRun.ExecBlock, Listing, RunList, Encode, StraightLine, BlockBytes, SameFrom,
         Compilable, RunsCompiled;
    if n == 0 {
      k := 0;
      NoStep(m, s);
    } else {
      var o := MirRun.ExecBlock(body, b, locals);
      if b == |body.blocks| - 1 {
        k := TailSim(m, s, fr, locals, body, out);
        assert MirRun.Run(body, o, n - 1) == o;
      } else {
        AheadAtOffset(body, b, Encode(out));
        var k1 := BlockSim(m, s, [], fr, locals, body, b);
        k := k1;
        if o.At? {
          var k2 := RunSimOptimized(m, V.Steps(m, s, k1).state, fr, o.locals, body, o.block, n - 1, out);
          StepsCompose(m, s, k1, k2);
          k := k1 + k2;
        } else {
          assert MirRun.Run(body, o, n - 1) == o;
        }
      }
    }
  }

  lemma TailSim(m: V.Module, s: V.State, fr: V.Frame, locals: seq<i64>, body: Body, out: seq<Instr>) returns (k: nat)
    requires TailReplaced(m, fr, body, out) && RunsCompiled(Program(body), fr, body)
    requires forall c :: AllInts(c, false) ==> SameFrom(body, out, c)
    requires Here(s, [], fr, |Ahead(body)|, locals, [])
    ensures var o := MirRun.ExecBlock(body, |body.blocks| - 1, locals);
            Final(o) && EndsAs(m, V.Steps(m, s, k), [], fr, body, o)
  {
    hide V.Step, V.Steps, CodeOf, Here, MirRun.ExecBlock, Listing, RunList, Encode, StraightLine;
    HereIsCore(s, fr, |Ahead(body)|, locals);
    var c := Core([], V.Top(s));
    TailIsBlock(body, fr, s, locals);
    assert SameFrom(body, out, c);
    CodeRun(m, Ahead(body), out, c);
    k := |out| + 1;
  }

  /** Blocks ahead of the last keep their bytes, whatever stands in its place. */
  lemma AheadAtOffset(body: Body, b: nat, rest: Bytes)
    requires EndsPlainly(body) && b < |body.blocks| - 1
    ensures MirRun.ScalarBlock(body.blocks[b])
    ensures CodeAt(Ahead(body) + rest, |CodeOf(body, b)|, BlockBytes(body, body.blocks[b]))
  {
    hide BlockBytes, CodeAt, CodeOf, Ahead, JumpFree, MirRun.ScalarBlock;
    var next := b + 1;
    NextBlock(body, b);
    AheadStarts(body, next);
    InPrefix(CodeOf(body, b), BlockBytes(body, body.blocks[b]), Ahead(body), rest);
  }

  lemma AheadStarts(body: Body, b: nat)
    requires EndsPlainly(body) && b < |body.blocks|
    ensures |CodeOf(body, b)| <= |Ahead(body)| && Ahead(body)[..|CodeOf(body, b)|] == CodeOf(body, b)
  {
    hide CodeOf;
    CodePrefix(body, b, |body.blocks| - 1);
  }

  lemma NextBlock(body: Body, b: nat)
    requires MirRun.ScalarBody(body) && b < |body.blocks|
    ensures MirRun.ScalarBlock(body.blocks[b])
    ensures var next := b + 1; CodeOf(body, next) == CodeOf(body, b) + BlockBytes(body, body.blocks[b])
  {
    hide BlockBytes;
    assert body.blocks[b] in body.blocks;
  }

  lemma InPrefix(a: Bytes, bs: Bytes, code: Bytes, rest: Bytes)
    requires |a + bs| <= |code| && code[..|a + bs|] == a + bs
    ensures CodeAt(code + rest, |a|, bs)
  {
    assert (code + rest)[|a|..|a| + |bs|] == code[..|a + bs|][|a|..];
  }

  /** The pass gives the last block a replacement that does the same. */
  lemma PassReplaces(body: Body, flags: seq<bool>, c: Core)
    requires EndsPlainly(body) && AllInts(c, false)
    requires var tail := Listing(body, LastBlock(body));
             AllStraight(tail) && WholeConstants(tail) && Optimize(tail, 0, flags).Some?
    ensures SameFrom(body, Optimize(Listing(body, LastBlock(body)), 0, flags).value, c)
  {
    hide RunList, StraightLine, Listing, Optimize;
    var tail := Listing(body, LastBlock(body));
    assert tail[0..] == tail;
    NoLoads(body, LastBlock(body));
    OptimizeStraight(tail, 0, flags);
    if RunList(tail, c) != Err(V.StackUnderflow) {
      PeepholePreserves(tail, 0, flags, c);
    }
  }

  lemma StartsOptimized(body: Body, code: Bytes)
    requires Compilable(body) && body.blocks != [] && |code| <= ISIZE_MAX
    ensures V.Start(Optimized(body, code)).Ok?
    ensures var m, s := Optimized(body, code), V.Start(Optimized(body, code)).value;
            && s.frames != [] && Runs(m, s.frames[0], body) && m.functions[s.frames[0].func].code == code
            && RunsCompiled(Program(body), s.frames[0], body)
            && Here(s, [], s.frames[0], |CodeOf(body, 0)|, Zeros(|body.locals|), [])
  {
    var m, f := Optimized(body, code), Compile(body).(code := code);
    var fr := V.FreshFrame(f, 0, [], U32_MAX, USIZE_MAX);
    var none: seq<V.Frame> := [];
    assert none + [fr] == [fr];
    assert m.functions[0] == f && Program(body).functions[0] == Compile(body);
    assert V.Start(m) == Ok(V.State([], [fr]));
    assert fr.locals == CC.Ints(Zeros(|body.locals|));
  }

  /**
  A body compiled with optimisation on, when the pass does not panic and leaves alone what stands
  ahead of the last block: the optimised code finishes with result r exactly when the MIR does.
  */
  lemma OptimizedCorrect(body: Body, flags: seq<bool>, r: V.ExecResult)
    requires Compilable(body) && EndsPlainly(body) && KeepsAhead(body, flags)
    requires OptimizeBytes(CodeOf(body, |body.blocks|), flags).Some?
    ensures MachineEnds(Optimized(body, OptimizeBytes(CodeOf(body, |body.blocks|), flags).value), r) <==>
            MirEnds(body, r)
  {
    hide V.Step, V.Steps, V.Start, CodeOf, Here, MirRun.Run, Encode, Optimize, Listing, KeepsAhead, OptimizeBytes,
         RunList, StraightLine, WholeConstants;
    var code, tail := OptimizeBytes(CodeOf(body, |body.blocks|), flags).value, Listing(body, LastBlock(body));
    var rest := OnlyLastChanges(body, flags);
    var out := Optimize(tail, 0, rest).value;
    LastBlockCode(body);
    NoLonger(tail, 0, rest);
    assert tail[0..] == tail;
    forall c | AllInts(c, false)
      ensures SameFrom(body, out, c)
    {
      PassReplaces(body, rest, c);
    }
    StartsOptimized(body, code);
    EndsAlike(body, out, code, r);
  }

  lemma EndsAlike(body: Body, out: seq<Instr>, code: Bytes, r: V.ExecResult)
    requires Compilable(body) && EndsPlainly(body) && code == Ahead(body) + Encode(out) && |code| <= ISIZE_MAX
    requires forall c :: AllInts(c, false) ==> SameFrom(body, out, c)
    ensures MachineEnds(Optimized(body, code), r) <==> MirEnds(body, r)
  {
    hide V.Step, V.Steps, V.Start, CodeOf, Here, MirRun.Run, Encode, RunList, StraightLine, SameFrom, Runs,
         RunsCompiled;
    StartsOptimized(body, code);
    var m, o := Optimized(body, code), MirRun.At(0, Zeros(|body.locals|));
    var s := V.Start(m).value;
    var fr := s.frames[0];
    if n: nat :| Final(MirRun.Run(body, o, n)) && ResultOf(MirRun.Run(body, o, n)) == r {
      var k := RunSimOptimized(m, s, fr, Zeros(|body.locals|), body, 0, n, out);
      assert V.Steps(m, s, k) == V.Done(r);
    }
    if k: nat :| V.Steps(m, s, k) == V.Done(r) {
      var j := RunSimOptimized(m, s, fr, Zeros(|body.locals|), body, 0, k, out);
      if MirRun.Run(body, o, k).At? {
        DoneIsFinal(m, s, k, j);
        assert false;
      }
      DoneIsFinal(m, s, if j <= k then j else k, if j <= k then k else j);
      assert Final(MirRun.Run(body, o, k)) && ResultOf(MirRun.Run(body, o, k)) == r;
    }
  }

  /** Code ahead of the last block made of fixed-width instructions that the pass keeps is enough. */
  lemma SizedKept(body: Body, pre: seq<Instr>, flags: seq<bool>)
    requires EndsPlainly(body) && Encode(pre) == Ahead(body) && forall i <- pre :: Sized(i)
    requires var all := pre + Listing(body, LastBlock(body)); WholeConstants(all) && KeptUntil(all, 0, |pre|, flags)
    ensures KeepsAhead(body, flags)
  {
    hide Encode, DecodeBytecode, Listing, StraightLine, BlockBytes, CodeOf, Sized, KeptUntil;
    var tail := Listing(body, LastBlock(body));
    LastBlockCode(body);
    StraightSized(tail);
    EncodeAppend(pre, tail);
    DecodeEncode(pre + tail);
    assert (pre + tail)[|pre|..] == tail && (pre + tail)[..|pre|] == pre;
  }

  /** With one block nothing stands ahead. */
  lemma SingleBlockKept(body: Body, flags: seq<bool>)
    requires EndsPlainly(body) && |body.blocks| == 1
    ensures KeepsAhead(body, flags)
  {
    hide Encode, Listing, StraightLine, KeepsAhead;
    var tail := Listing(body, LastBlock(body));
    LastBlockCode(body);
    StraightWhole(tail);
    EncodeNone();
    assert [] + tail == tail;
    SizedKept(body, [], flags);
  }

  // ----- offsets that go stale -----

  /** x := 2 + 3; then in the next block return x. */
  function StaleBody(): Body {
    var result, x := Place(0, []), Place(1, []);
    Body([BasicBlock([Assign(x, BinaryOp(Add, Constant(CInt(2)), Constant(CInt(3))))], Goto(1)),
          BasicBlock([Assign(result, Use(Copy(x)))], Return)],
         [TInt, TInt])
  }

  function LoadConst(v: i64): Instr {
    Instr(OP_LOAD_CONST, I64Le(v))
  }

  function StaleFirst(): seq<Instr> {
    [LoadConst(2), LoadConst(3), Instr(OP_ADD, []), Instr(OP_STORE_LOCAL, U32Le(1)), Instr(OP_JUMP, U32Le(1))]
  }

  function StaleFolded(): seq<Instr> {
    [LoadConst(5), Instr(OP_STORE_LOCAL, U32Le(1)), Instr(OP_JUMP, U32Le(1))]
  }

  function StaleLast(): seq<Instr> {
    [Instr(OP_LOAD_LOCAL, U32Le(1)), Instr(OP_STORE_LOCAL, U32Le(0)), Instr(OP_LOAD_LOCAL, U32Le(0)),
     Instr(OP_RETURN, [])]
  }

  lemma StaleScalar()
    ensures EndsPlainly(StaleBody()) && Listing(StaleBody(), LastBlock(StaleBody())) == StaleLast()
    ensures FoldedBody(StaleBody())
  {
    var ss := StaleBody().blocks[1].statements;
    assert ss[1..] == [] && StatementsInstrs(ss[1..]) == [];
  }

  lemma EncodeFrom(instrs: seq<Instr>, k: nat)
    requires k < |instrs|
    ensures Encode(instrs[k..]) == [instrs[k].op] + instrs[k].operand + Encode(instrs[k + 1..])
  {
    hide Encode;
    EncodeAppend([instrs[k]], instrs[k + 1..]);
    EncodeOne(instrs[k]);
    assert instrs[k..] == [instrs[k]] + instrs[k + 1..];
  }

  lemma EncodeWhole(instrs: seq<Instr>)
    ensures Encode(instrs) == Encode(instrs[0..]) && Encode(instrs[|instrs|..]) == []
  {
    hide Encode;
    EncodeNone();
    assert instrs[0..] == instrs && instrs[|instrs|..] == [];
  }

  lemma FirstEncoded()
    ensures Encode(StaleFirst()) ==
            RvalueBytes(BinaryOp(Add, Constant(CInt(2)),
                                 Constant(CInt(3)))) + ([OP_STORE_LOCAL] + U32Le(1)) + JumpBytes(1)
    ensures |Encode(StaleFirst())| == 29
  {
    hide Encode, StraightLine;
    var sum := BinaryOp(Add, Constant(CInt(2)), Constant(CInt(3)));
    var store, jump := Instr(OP_STORE_LOCAL, U32Le(1)), Instr(OP_JUMP, U32Le(1));
    RvalueListed(sum);
    StoreListed(1);
    EncodeOne(jump);
    EncodeAppend(RvalueInstrs(sum), [store]);
    EncodeAppend(RvalueInstrs(sum) + [store], [jump]);
    assert StaleFirst() == RvalueInstrs(sum) + [store] + [jump];
  }

  lemma FoldedEncoded()
    ensures var set5 := Assign(Place(1, []), Use(Constant(CInt(5))));
            Encode(StaleFolded()) == StatementBytes(set5) + JumpBytes(1) && |StatementBytes(set5)| == 14
    ensures |Encode(StaleFolded())| == 19
  {
    hide Encode, StraightLine;
    var five := Constant(CInt(5));
    var store, jump := Instr(OP_STORE_LOCAL, U32Le(1)), Instr(OP_JUMP, U32Le(1));
    OperandListed(five);
    StoreListed(1);
    EncodeOne(jump);
    EncodeAppend([OperandInstr(five)], [store]);
    EncodeAppend([OperandInstr(five)] + [store], [jump]);
    assert StaleFolded() == [OperandInstr(five)] + [store] + [jump];
  }

  lemma LastEncoded()
    ensures Encode(StaleLast())[10..] == LoadLocalBytes(0) + [OP_RETURN] && |Encode(StaleLast())| == 16
  {
    hide Encode;
    var instrs := StaleLast();
    EncodeWhole(instrs);
    EncodeFrom(instrs, 3);
    EncodeFrom(instrs, 2);
    EncodeFrom(instrs, 1);
    EncodeFrom(instrs, 0);
  }

  lemma StaleCode()
    ensures MirRun.ScalarBody(StaleBody())
    ensures CodeOf(StaleBody(), 0) == [] && |CodeOf(StaleBody(), 1)| == 29
    ensures CodeOf(StaleBody(), 2) == Encode(StaleFirst() + StaleLast()) && |CodeOf(StaleBody(), 2)| == 45
  {
    hide Encode, RvalueBytes, StaleFirst, StaleLast, Listing;
    var body := StaleBody();
    StaleScalar();
    FirstEncoded();
    LastEncoded();
    LastBlockCode(body);
    EncodeAppend(StaleFirst(), StaleLast());
    var s := body.blocks[0].statements[0];
    assert body.blocks[0].statements[1..] == [] && StatementsBytes([]) == [];
    assert StatementsBytes([s]) == StatementBytes(s) + [];
    NextBlock(body, 0);
  }

  lemma OpSizes(v: i64, i: u32)
    ensures Sized(LoadConst(v)) && Sized(Instr(OP_ADD, [])) && Sized(Instr(OP_RETURN, []))
    ensures Sized(Instr(OP_STORE_LOCAL, U32Le(i))) && Sized(Instr(OP_LOAD_LOCAL, U32Le(i)))
            && Sized(Instr(OP_JUMP, U32Le(i)))
  {
  }

  lemma StaleSized()
    ensures forall i <- StaleFirst() + StaleLast() :: Sized(i) && (i.op == OP_LOAD_CONST ==> |i.operand| == 8)
  {
    hide Sized, U32Le;
    OpSizes(2, 0);
    OpSizes(3, 1);
  }

  /** Without integer constants and negations the pass changes nothing. */
  lemma {:induction false} NothingToDo(instrs: seq<Instr>, k: nat)
    requires WholeConstants(instrs) && k <= |instrs| && forall j :: k <= j < |instrs| ==> instrs[j].op != OP_NEG
    ensures Optimize(instrs, k, []) == Some(instrs[k..])
    decreases |instrs| - k
  {
    if k < |instrs| {
      NothingToDo(instrs, k + 1);
      assert instrs[k..] == [instrs[k]] + instrs[k + 1..];
    }
  }

  lemma StaleDecoded()
    ensures DecodeBytecode(Encode(StaleFirst() + StaleLast())) == Some(StaleFirst() + StaleLast())
    ensures WholeConstants(StaleFirst() + StaleLast())
  {
    hide Encode, DecodeBytecode, Sized;
    StaleSized();
    DecodeEncode(StaleFirst() + StaleLast());
  }

  lemma StaleOptimized()
    requires WholeConstants(StaleFirst() + StaleLast())
    ensures Optimize(StaleFirst() + StaleLast(), 0, [true, true]) == Some(StaleFolded() + StaleLast())
  {
    hide FoldIntBinop, IsFoldable, I64Le, ReadI64, U32Le;
    var all, flags := StaleFirst() + StaleLast(), [true, true];
    I64RoundTrip(2);
    I64RoundTrip(3);
    TwoAndThree();
    NothingToDo(all, 3);
    assert Tail(flags) == [true] && Tail([true]) == [];
    assert AtFold(all, 0, flags) && ConstAt(all, 0) == 2 && ConstAt(all, 1) == 3;
    assert StaleFolded() + StaleLast() == [LoadConst(5)] + all[3..];
  }

  lemma TwoAndThree()
    ensures FoldIntBinop(OP_ADD, 2, 3) == Folded(5) && IsFoldable(OP_ADD)
  {
  }

  /**
  The first block of this body gets shorter, the jump still goes to the old offset of the second, now
  in the middle of it: the body returns 5 and the optimised code 0.
  */
  lemma OffsetsGoStale()
    ensures Compilable(StaleBody()) && OptimizeBytes(CodeOf(StaleBody(), 2), FlagsOf(StaleBody(), 2)).Some?
    ensures MirEnds(StaleBody(), Ok(V.Int(5)))
    ensures var code := OptimizeBytes(CodeOf(StaleBody(), 2), FlagsOf(StaleBody(), 2)).value;
            MachineEnds(Optimized(StaleBody(), code), Ok(V.Int(0)))
  {
    hide Encode, DecodeBytecode, Optimize, CodeOf, WholeConstants, MirEnds, MachineEnds, StaleFirst, StaleLast,
         StaleFolded, Compilable, FlagsOf;
    StaleScalar();
    StaleFlags();
    StaleCode();
    StaleDecoded();
    StaleOptimized();
    StaleCompilable();
    StaleMir();
    StaleMachine(Encode(StaleFolded() + StaleLast()));
  }

  lemma StaleFlags()
    requires MirRun.ScalarBody(StaleBody())
    ensures FlagsOf(StaleBody(), 2) == [true, true]
  {
    var blocks := StaleBody().blocks;
    assert blocks[0] in blocks && blocks[1] in blocks;
    assert blocks[0].statements[1..] == [] && blocks[1].statements[1..] == [];
    assert StatementsFlags(blocks[0].statements[1..]) == [] && StatementsFlags(blocks[1].statements[1..]) == [];
    assert FlagsOf(StaleBody(), 0) == [];
    assert FlagsOf(StaleBody(), 1) == [true, true];
  }

  lemma StaleCompilable()
    requires MirRun.ScalarBody(StaleBody()) && |CodeOf(StaleBody(), 2)| == 45
    ensures Compilable(StaleBody())
  {
    hide CodeOf;
    StaleScalar();
  }

  lemma StaleFirstBlock()
    requires MirRun.ScalarBody(StaleBody())
    ensures MirRun.ExecBlock(StaleBody(), 0, [0, 0]) == MirRun.At(1, [0, 5])
  {
    var body := StaleBody();
    var ss := body.blocks[0].statements;
    assert [0, 0][1 := 5] == [0, 5] && ss[1..] == [];
    assert MirRun.ExecStatement(body, ss[0], [0, 0]) == Ok([0, 5]);
    assert MirRun.ExecStatements(body, ss[1..], [0, 5]) == Ok([0, 5]);
  }

  lemma StaleLastBlock()
    requires MirRun.ScalarBody(StaleBody())
    ensures MirRun.ExecBlock(StaleBody(), 1, [0, 5]) == MirRun.Returned(5)
  {
    var body := StaleBody();
    var ss := body.blocks[1].statements;
    assert [0, 5][0 := 5] == [5, 5] && ss[1..] == [];
    assert MirRun.ExecStatement(body, ss[0], [0, 5]) == Ok([5, 5]);
    assert MirRun.ExecStatements(body, ss[1..], [5, 5]) == Ok([5, 5]);
  }

  lemma StaleMir()
    requires MirRun.ScalarBody(StaleBody())
    ensures MirEnds(StaleBody(), Ok(V.Int(5)))
  {
    hide MirRun.ExecBlock, MirRun.ScalarBody;
    var body := StaleBody();
    StaleFirstBlock();
    StaleLastBlock();
    assert Zeros(2) == [0, 0];
    assert MirRun.Run(body, MirRun.At(1, [0, 5]), 1) == MirRun.Returned(5);
    assert MirRun.Run(body, MirRun.At(0, [0, 0]), 2) == MirRun.Returned(5);
  }

  lemma StaleMachine(code: Bytes)
    requires code == Encode(StaleFolded() + StaleLast()) && Compilable(StaleBody())
    requires CodeOf(StaleBody(), 0) == [] && |CodeOf(StaleBody(), 1)| == 29
    ensures MachineEnds(Optimized(StaleBody(), code), Ok(V.Int(0)))
  {
    hide Encode, V.Step, V.Steps, V.Start, CodeOf, Here, StatementBytes, Compilable, StaleFolded, StaleLast, JumpBytes,
         V.ResolveTarget;
    FoldedEncoded();
    LastEncoded();
    EncodeAppend(StaleFolded(), StaleLast());
    StartsOptimized(StaleBody(), code);
    var body, m := StaleBody(), Optimized(StaleBody(), code);
    var s := V.Start(m).value;
    var fr := s.frames[0];
    var set5 := Assign(Place(1, []), Use(Constant(CInt(5))));
    var sb, jb := StatementBytes(set5), JumpBytes(1);
    assert code[..14] == sb && code[14..19] == jb;
    assert Zeros(2) == [0, 0] && [0, 0][1 := 5] == [0, 5];
    StatementSim(m, s, [], fr, 0, [0, 0], [], body, set5);
    var n := StatementSteps(set5);
    var s1 := V.Steps(m, s, n).state;
    JumpStep(m, s1, [], fr, 14, [0, 5], 1);
    OneStep(m, s1);
    var s2 := V.Step(m, s1).state;
    Resolves(m, fr, body, 1);
    assert code[29..35] == Encode(StaleLast())[10..];
    var k := ReturnLocalSim(m, s2, [], fr, 29, [0, 5], body);
    StepsCompose(m, s1, 1, k);
    StepsCompose(m, s, n, 1 + k);
  }
}
