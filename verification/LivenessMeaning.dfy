/**
Liveness against the meaning of MIR: what a run gives depends on live locals alone
(crates/glyim-borrowck/src/liveness.rs).
*/
module LivenessMeaning {
  import opened Int64
  import opened Mir
  import opened MirRun
  import opened Visitor
  import opened Wrappers
  import D = Dataflow
  import L = Liveness

  /** Some path of blocks from b leads to a read of v, and none before defines v. */
  ghost predicate LiveAt(body: Body, b: nat, v: nat) {
    exists path :: path != [] && path[0] == b && L.LeadsToRead(body, path, v)
  }

  /** The locals agree on what is live at block b, and on the local that is returned. */
  ghost predicate Alike(body: Body, b: nat, x: seq<i64>, y: seq<i64>) {
    |x| == |y| && forall v: nat :: v < |x| && (v == 0 || LiveAt(body, b, v)) ==> x[v] == y[v]
  }

  // ----- inside a block -----

  /** From statement i on v is read before it is assigned, or not assigned and live after the block. */
  ghost predicate WantedFrom(bb: BasicBlock, i: nat, v: nat, later: bool)
    requires i <= |bb.statements|
    decreases |bb.statements| - i
  {
    if i == |bb.statements| then
      ReadsLocal(TerminatorReads(bb.terminator), v) || (later && v !in L.CallDefs(bb.terminator))
    else
      || StatementReads(bb.statements[i], v)
      || (!Assigns(bb.statements[i], v) && WantedFrom(bb, i + 1, v, later))
  }

  lemma {:induction false} WantedIs(bb: BasicBlock, i: nat, v: nat, later: bool)
    requires i <= |bb.statements|
    ensures var ss, n := bb.statements, |bb.statements|;
            WantedFrom(bb, i, v, later) <==>
            || (exists j :: i <= j < n && StatementReads(ss[j], v) && forall k :: i <= k < j ==> !Assigns(ss[k], v))
            || ((forall k :: i <= k < n ==> !Assigns(ss[k], v))
                && (ReadsLocal(TerminatorReads(bb.terminator), v) || (later && v !in L.CallDefs(bb.terminator))))
    decreases |bb.statements| - i
  {
    hide StatementReads, Assigns, ReadsLocal, TerminatorReads, L.CallDefs;
    if i < |bb.statements| {
      WantedIs(bb, i + 1, v, later);
    }
  }

  lemma WantedAtStart(bb: BasicBlock, v: nat, later: bool)
    ensures WantedFrom(bb, 0, v, later) <==> L.Exposed(bb, v) || (!L.Defines(bb, v) && later)
  {
    hide StatementReads, Assigns, ReadsLocal, TerminatorReads, L.CallDefs, WantedFrom;
    WantedIs(bb, 0, v, later);
  }

  /** Live at a block: wanted in it, given what is live at its successors. */
  lemma LiveIsWanted(body: Body, b: nat, v: nat)
    requires b < |body.blocks|
    ensures LiveAt(body, b, v) <==> WantedFrom(body.blocks[b], 0, v, L.ReadInLaterBlock(body, b, v))
  {
    hide L.Exposed, L.Defines, WantedFrom, Successors;
    var bb := body.blocks[b];
    WantedAtStart(bb, v, L.ReadInLaterBlock(body, b, v));
    if L.Exposed(bb, v) {
      assert L.LeadsToRead(body, [b], v);
    }
    if !L.Defines(bb, v) && L.ReadInLaterBlock(body, b, v) {
      var path :| path != [] && path[0] in Successors(bb.terminator) && L.LeadsToRead(body, path, v);
      assert ([b] + path)[1..] == path;
      assert L.LeadsToRead(body, [b] + path, v);
    }
    if LiveAt(body, b, v) {
      var path :| path != [] && path[0] == b && L.LeadsToRead(body, path, v);
      if |path| > 1 {
        assert path[1..] != [] && path[1..][0] in Successors(bb.terminator) && L.LeadsToRead(body, path[1..], v);
      }
    }
  }

  ghost predicate AlikeFrom(body: Body, b: nat, i: nat, x: seq<i64>, y: seq<i64>)
    requires b < |body.blocks| && i <= |body.blocks[b].statements|
  {
    && |x| == |y|
    && forall v: nat ::
         v < |x| && (v == 0 || WantedFrom(body.blocks[b], i, v, L.ReadInLaterBlock(body, b, v))) ==> x[v] == y[v]
  }

  lemma AlikeAtStart(body: Body, b: nat, x: seq<i64>, y: seq<i64>)
    requires b < |body.blocks|
    ensures Alike(body, b, x, y) <==> AlikeFrom(body, b, 0, x, y)
  {
    hide LiveAt, WantedFrom, L.ReadInLaterBlock;
    forall v: nat
      ensures LiveAt(body, b, v) <==> WantedFrom(body.blocks[b], 0, v, L.ReadInLaterBlock(body, b, v))
    {
      LiveIsWanted(body, b, v);
    }
  }

  // ----- reads decide -----

  ghost predicate AgreeOn(places: seq<Place>, x: seq<i64>, y: seq<i64>) {
    |x| == |y| && forall v: nat :: v < |x| && ReadsLocal(places, v) ==> x[v] == y[v]
  }

  lemma OperandDecided(o: Operand, x: seq<i64>, y: seq<i64>)
    requires ScalarOperand(o) && AgreeOn(OperandReads(o), x, y)
    ensures EvalOperand(o, x) == EvalOperand(o, y)
  {
    if !o.Constant? {
      assert OperandReads(o)[0].local == o.place.local;
    }
  }

  lemma PartAgrees(a: seq<Place>, b: seq<Place>, x: seq<i64>, y: seq<i64>)
    requires AgreeOn(a + b, x, y)
    ensures AgreeOn(a, x, y) && AgreeOn(b, x, y)
  {
    assert forall k :: 0 <= k < |a| ==> (a + b)[k] == a[k];
    assert forall k :: 0 <= k < |b| ==> (a + b)[|a| + k] == b[k];
  }

  lemma RvalueDecided(body: Body, r: Rvalue, x: seq<i64>, y: seq<i64>)
    requires ScalarRvalue(r) && AgreeOn(RvalueReads(r), x, y)
    ensures EvalRvalue(body, r, x) == EvalRvalue(body, r, y)
  {
    hide EvalOperand, EvalBinary, EvalUnary, AgreeOn, OperandReads, ScalarOperand;
    match r
    case Use(o) => OperandDecided(o, x, y);
    case BinaryOp(_, a, b) =>
      PartAgrees(OperandReads(a), OperandReads(b), x, y);
      OperandDecided(a, x, y);
      OperandDecided(b, x, y);
    case UnaryOp(_, o) => OperandDecided(o, x, y);
  }

  lemma StatementAlike(body: Body, b: nat, i: nat, x: seq<i64>, y: seq<i64>)
    requires ScalarBody(body) && b < |body.blocks| && i < |body.blocks[b].statements|
    requires ScalarStatement(body.blocks[b].statements[i]) && AlikeFrom(body, b, i, x, y)
    ensures var s, next := body.blocks[b].statements[i], i + 1;
            match (ExecStatement(body, s, x), ExecStatement(body, s, y))
            case (Ok(x'), Ok(y')) => AlikeFrom(body, b, next, x', y')
            case (Err(e), Err(f)) => e == f
            case _ => false
  {
    hide EvalRvalue, L.ReadInLaterBlock, TerminatorReads, L.CallDefs, RvalueReads, ReadsLocal;
    var s := body.blocks[b].statements[i];
    if s.Assign? {
      assert AgreeOn(RvalueReads(s.rvalue), x, y);
      RvalueDecided(body, s.rvalue, x, y);
    }
  }

  lemma {:induction false} StatementsAlike(body: Body, b: nat, i: nat, x: seq<i64>, y: seq<i64>)
    requires ScalarBody(body) && b < |body.blocks| && i <= |body.blocks[b].statements|
    requires (forall s <- body.blocks[b].statements :: ScalarStatement(s)) && AlikeFrom(body, b, i, x, y)
    ensures var ss, n := body.blocks[b].statements, |body.blocks[b].statements|;
            match (ExecStatements(body, ss[i..], x), ExecStatements(body, ss[i..], y))
            case (Ok(x'), Ok(y')) => AlikeFrom(body, b, n, x', y')
            case (Err(e), Err(f)) => e == f
            case _ => false
    decreases |body.blocks[b].statements| - i
  {
    hide ExecStatement, AlikeFrom;
    var ss := body.blocks[b].statements;
    if i < |ss| {
      assert ss[i] in ss && ss[i..][0] == ss[i] && ss[i..][1..] == ss[i + 1..];
      StatementAlike(body, b, i, x, y);
      if ExecStatement(body, ss[i], x).Ok? {
        StatementsAlike(body, b, i + 1, ExecStatement(body, ss[i], x).value, ExecStatement(body, ss[i], y).value);
      }
    }
  }

  // ----- whole runs -----

  /** The same end, or the same block with locals alike on what is live there. */
  ghost predicate SameOutcome(body: Body, o: Outcome, p: Outcome) {
    if o.At? && p.At? then o.block == p.block && Alike(body, o.block, o.locals, p.locals) else o == p
  }

  lemma SuccessorAlike(body: Body, b: nat, c: nat, x: seq<i64>, y: seq<i64>)
    requires b < |body.blocks| && ScalarTerminator(body.blocks[b].terminator)
    requires AlikeFrom(body, b, |body.blocks[b].statements|, x, y) && c in Successors(body.blocks[b].terminator)
    ensures Alike(body, c, x, y)
  {
    hide Successors, TerminatorReads, ReadsLocal, L.LeadsToRead;
    forall v: nat | v < |x| && LiveAt(body, c, v)
      ensures x[v] == y[v]
    {
      var path :| path != [] && path[0] == c && L.LeadsToRead(body, path, v);
      assert L.ReadInLaterBlock(body, b, v);
    }
  }

  lemma TerminatorAlike(body: Body, b: nat, x: seq<i64>, y: seq<i64>)
    requires b < |body.blocks| && ScalarTerminator(body.blocks[b].terminator)
    requires AlikeFrom(body, b, |body.blocks[b].statements|, x, y)
    ensures var t := body.blocks[b].terminator;
            SameOutcome(body, ExecTerminator(body, t, x), ExecTerminator(body, t, y))
  {
    hide Alike, L.ReadInLaterBlock, L.CallDefs, EvalOperand, SwitchTarget, ReadsLocal;
    var t := body.blocks[b].terminator;
    assert AgreeOn(TerminatorReads(t), x, y);
    if t.SwitchInt? || t.Assert? {
      OperandDecided(if t.SwitchInt? then t.discr else t.cond, x, y);
    }
    var o, p := ExecTerminator(body, t, x), ExecTerminator(body, t, y);
    if o.At? {
      TargetIsSuccessor(body, t, x);
      SuccessorAlike(body, b, o.block, x, y);
    }
  }

  lemma {:induction false} FirstArmListed(arms: seq<Arm>, otherwise: Block, v: nat)
    ensures FirstArm(arms, otherwise, v) in ArmTargets(arms) + [otherwise as nat]
    decreases |arms|
  {
    if arms != [] {
      FirstArmListed(arms[1..], otherwise, v);
    }
  }

  /** Control goes on at a successor. */
  lemma TargetIsSuccessor(body: Body, t: Terminator, locals: seq<i64>)
    requires ScalarTerminator(t) && ExecTerminator(body, t, locals).At?
    ensures ExecTerminator(body, t, locals).block in Successors(t)
    ensures ExecTerminator(body, t, locals).locals == locals
  {
    hide FirstArm, ArmTargets;
    if t.SwitchInt? {
      var d := EvalOperand(t.discr, locals).value;
      FirstArmListed(t.arms, t.otherwise, if t.onBool then Bool(d != 0) else SignExtend(d));
    }
  }

  lemma BlockAlike(body: Body, b: nat, x: seq<i64>, y: seq<i64>)
    requires ScalarBody(body) && b < |body.blocks| && Alike(body, b, x, y)
    ensures SameOutcome(body, ExecBlock(body, b, x), ExecBlock(body, b, y))
  {
    hide Alike, AlikeFrom, ExecStatements, ExecTerminator;
    var bb := body.blocks[b];
    assert bb in body.blocks && bb.statements[0..] == bb.statements;
    AlikeAtStart(body, b, x, y);
    StatementsAlike(body, b, 0, x, y);
    if ExecStatements(body, bb.statements, x).Ok? {
      TerminatorAlike(body, b, ExecStatements(body, bb.statements, x).value,
                      ExecStatements(body, bb.statements, y).value);
    }
  }

  lemma StaysInBody(body: Body, b: nat, x: seq<i64>)
    requires ScalarBody(body) && b < |body.blocks|
    ensures Valid(body, ExecBlock(body, b, x))
  {
    hide ExecStatements;
  }

  /**
  Locals that are not live at a block, the returned one apart, make no difference to any run from
  there: two runs take the same blocks and end alike.
  */
  lemma {:induction false} LiveDecides(body: Body, b: nat, x: seq<i64>, y: seq<i64>, n: nat)
    requires ScalarBody(body) && b < |body.blocks| && Alike(body, b, x, y)
    ensures SameOutcome(body, Run(body, At(b, x), n), Run(body, At(b, y), n))
    decreases n
  {
    hide ExecBlock, Alike;
    if n > 0 {
      BlockAlike(body, b, x, y);
      var o, p := ExecBlock(body, b, x), ExecBlock(body, b, y);
      StaysInBody(body, b, x);
      if o.At? && p.At? {
        LiveDecides(body, o.block, o.locals, p.locals, n - 1);
      } else {
        assert Run(body, o, n - 1) == o && Run(body, p, n - 1) == p;
      }
    }
  }

  /** In terms of the analysis: a local outside the live-out set of a block can be changed on leaving it. */
  lemma DeadCanChange(body: Body, b: nat, c: nat, liveOut: set<nat>, x: seq<i64>, v: nat, value: i64, n: nat)
    requires ScalarBody(body) && TargetsExist(body) && b < |body.blocks| && c in Successors(body.blocks[b].terminator)
    requires D.Valid(L.LivenessProblem(body)) && c < |body.blocks|
    requires forall u: nat :: u in liveOut <==> D.Arrives(L.LivenessProblem(body), b, u)
    requires v !in liveOut && 0 < v < |x|
    ensures SameOutcome(body, Run(body, At(c, x), n), Run(body, At(c, x[v := value]), n))
  {
    hide Run, SameOutcome, L.LeadsToRead, Successors, L.LivenessProblem;
    L.ArrivesIsLaterRead(body, b, v);
    assert !LiveAt(body, c, v);
    LiveDecides(body, c, x, x[v := value], n);
  }
}
