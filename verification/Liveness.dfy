/** Backward liveness of locals (crates/glyim-borrowck/src/liveness.rs). */
module Liveness {
  import opened Mir
  import opened Visitor
  import opened Worklist
  import D = Dataflow

  // ----- block summaries: exposed uses and definitions, built forward -----

  datatype Summary = Summary(uses: set<nat>, defs: set<nat>)

  function AfterStatement(m: Summary, s: Statement): Summary {
    if s.Assign? then
      Summary(m.uses + (LocalsOf(RvalueReads(s.rvalue)) - m.defs), m.defs + {s.dest.local as nat})
    else m
  }

  function AfterStatements(m: Summary, ss: seq<Statement>): Summary
    decreases |ss|
  {
    if ss == [] then m else AfterStatements(AfterStatement(m, ss[0]), ss[1..])
  }

  function CallDefs(t: Terminator): set<nat> {
    if t.Call? then {t.destination.local as nat} else {}
  }

  function AfterTerminator(m: Summary, t: Terminator): Summary {
    Summary(m.uses + (LocalsOf(TerminatorReads(t)) - m.defs), m.defs + CallDefs(t))
  }

  function BlockSummary(bb: BasicBlock): Summary {
    AfterTerminator(AfterStatements(Summary({}, {}), bb.statements), bb.terminator)
  }

  /** Liveness as a gen/kill problem: facts flow from the successors. */
  function LivenessProblem(body: Body): D.Problem {
    D.Problem(SuccessorLists(body),
              seq(|body.blocks|, b requires 0 <= b < |body.blocks| => BlockSummary(body.blocks[b]).uses),
              seq(|body.blocks|, b requires 0 <= b < |body.blocks| => BlockSummary(body.blocks[b]).defs))
  }

  lemma ProblemValid(body: Body)
    requires TargetsExist(body)
    ensures D.Valid(LivenessProblem(body))
  {
  }

  method ComputeBlockSummaries(body: Body) returns (uses: seq<set<nat>>, defs: seq<set<nat>>)
    ensures uses == LivenessProblem(body).gen && defs == LivenessProblem(body).kill
  {
    hide AfterStatement, AfterTerminator;
    uses, defs := [], [];
    for b := 0 to |body.blocks|
      invariant uses == LivenessProblem(body).gen[..b] && defs == LivenessProblem(body).kill[..b]
    {
      var bb := body.blocks[b];
      var m := Summary({}, {});
      for k := 0 to |bb.statements|
        invariant AfterStatements(Summary({}, {}), bb.statements) == AfterStatements(m, bb.statements[k..])
      {
        assert bb.statements[k..][0] == bb.statements[k] && bb.statements[k..][1..] == bb.statements[k + 1..];
        m := AfterStatement(m, bb.statements[k]);
      }
      m := AfterTerminator(m, bb.terminator);
      uses, defs := uses + [m.uses], defs + [m.defs];
    }
  }

  // ----- the worklist -----

  /**
  The locals live on exit from each block: exactly those that some path of blocks from a successor
  leads to an exposed use of, with no definition on the way.
  */
  method ComputeLiveness(body: Body) returns (liveOut: seq<set<nat>>)
    requires TargetsExist(body)
    ensures |liveOut| == |body.blocks|
    ensures D.Valid(LivenessProblem(body))
    ensures forall b, v :: 0 <= b < |body.blocks| ==> (v in liveOut[b] <==> D.Arrives(LivenessProblem(body), b, v))
  {
    hide BlockSummary, D.Inv, D.Arrives, D.Room, D.Union;
    ProblemValid(body);
    ghost var p := LivenessProblem(body);
    var n := |body.blocks|;
    var uses, defs := ComputeBlockSummaries(body);
    var successors, predecessors := BuildEdges(body);
    var liveIn: seq<set<nat>> := seq(n, _ => {});
    liveOut := seq(n, _ => {});
    var worklist, inWorklist := AllNodes(n);
    D.StartInv(p, inWorklist);
    while worklist != []
      invariant |liveIn| == n && |liveOut| == n
      invariant D.Inv(p, liveOut, liveIn, inWorklist)
      invariant Holds(worklist, inWorklist, n)
      decreases D.Room(p, liveOut, liveIn), |worklist|
    {
      ghost var before := inWorklist;
      var bi := worklist[|worklist| - 1];
      PopHolds(worklist, inWorklist, n);
      worklist, inWorklist := worklist[..|worklist| - 1], inWorklist - {bi};
      var newLiveOut := UnionOf(successors[bi], liveIn);
      var newLiveIn := uses[bi] + (newLiveOut - defs[bi]);
      D.RoomNonNegative(p, liveOut, liveIn, before);
      if newLiveIn != liveIn[bi] || newLiveOut != liveOut[bi] {
        ghost var in0, out0 := liveIn, liveOut;
        liveIn := liveIn[bi := newLiveIn];
        liveOut := liveOut[bi := newLiveOut];
        worklist, inWorklist := Enqueue(predecessors[bi], worklist, inWorklist, n);
        D.StepKeepsInv(p, predecessors, out0, in0, before, bi, liveOut, liveIn, inWorklist);
        D.RoomShrinks(p, out0, in0, bi, newLiveOut, newLiveIn);
      } else {
        assert liveOut[bi := newLiveOut] == liveOut && liveIn[bi := newLiveIn] == liveIn;
        D.StepKeepsInv(p, predecessors, liveOut, liveIn, before, bi, liveOut, liveIn, inWorklist);
      }
    }
    assert inWorklist == {};
    D.DoneExact(p, liveOut, liveIn);
  }

  // ----- liveness before each statement -----

  predicate Kills(s: Statement, v: nat) {
    Assigns(s, v) || (s.StorageDead? && s.local == v)
  }

  function Before(s: Statement, live: set<nat>): set<nat> {
    match s
    case Assign(p, r) => (live - {p.local as nat}) + LocalsOf(RvalueReads(r))
    case StorageDead(v) => live - {v as nat}
    case _ => live
  }

  function Scan(ss: seq<Statement>, live: set<nat>): set<nat>
    decreases |ss|
  {
    if ss == [] then live else Before(ss[0], Scan(ss[1..], live))
  }

  /** result[i] is what is live before statement i; the last entry is the set given. */
  method ComputeStmtLiveness(ss: seq<Statement>, liveOut: set<nat>) returns (liveness: seq<set<nat>>)
    ensures |liveness| == |ss| + 1
    ensures forall i :: 0 <= i <= |ss| ==> liveness[i] == Scan(ss[i..], liveOut)
  {
    hide Before;
    liveness := seq(|ss| + 1, _ => {});
    liveness := liveness[|ss| := liveOut];
    var i := |ss|;
    while i > 0
      invariant 0 <= i <= |ss| && |liveness| == |ss| + 1
      invariant forall k :: i <= k <= |ss| ==> liveness[k] == Scan(ss[k..], liveOut)
    {
      i := i - 1;
      assert ss[i..][0] == ss[i] && ss[i..][1..] == ss[i + 1..];
      liveness := liveness[i := Before(ss[i], liveness[i + 1])];
    }
  }

  // ----- what the sets mean at a program point -----

  ghost predicate Untouched(ss: seq<Statement>, i: nat, j: nat, v: nat)
    requires j <= |ss|
  {
    forall k :: i <= k < j ==> !Kills(ss[k], v)
  }

  /** A statement from i on reads v before anything redefines it or ends its storage. */
  ghost predicate ReadAhead(ss: seq<Statement>, i: nat, v: nat) {
    exists j :: i <= j < |ss| && StatementReads(ss[j], v) && Untouched(ss, i, j, v)
  }

  lemma BeforeIs(s: Statement, live: set<nat>, v: nat)
    ensures v in Before(s, live) <==> StatementReads(s, v) || (!Kills(s, v) && v in live)
  {
  }

  lemma {:induction false} ScanExact(ss: seq<Statement>, i: nat, live: set<nat>, v: nat)
    requires i <= |ss|
    ensures v in Scan(ss[i..], live) <==> ReadAhead(ss, i, v) || (Untouched(ss, i, |ss|, v) && v in live)
    decreases |ss| - i
  {
    hide Before, Kills, StatementReads;
    if i < |ss| {
      assert ss[i..][0] == ss[i] && ss[i..][1..] == ss[i + 1..];
      BeforeIs(ss[i], Scan(ss[i + 1..], live), v);
      ScanExact(ss, i + 1, live, v);
      if StatementReads(ss[i], v) {
        assert Untouched(ss, i, i, v);
      }
      if !Kills(ss[i], v) && ReadAhead(ss, i + 1, v) {
        var j :| i + 1 <= j < |ss| && StatementReads(ss[j], v) && Untouched(ss, i + 1, j, v);
        assert Untouched(ss, i, j, v);
      }
      if ReadAhead(ss, i, v) && !StatementReads(ss[i], v) {
        var j :| i <= j < |ss| && StatementReads(ss[j], v) && Untouched(ss, i, j, v);
        assert Untouched(ss, i + 1, j, v);
      }
    }
  }

  // ----- what a block summary means -----

  ghost predicate Unassigned(ss: seq<Statement>, j: nat, v: nat)
    requires j <= |ss|
  {
    forall k :: 0 <= k < j ==> !Assigns(ss[k], v)
  }

  /** v is read in the block before the block assigns it. */
  ghost predicate Exposed(bb: BasicBlock, v: nat) {
    || (exists j :: 0 <= j < |bb.statements| && StatementReads(bb.statements[j], v) && Unassigned(bb.statements, j, v))
    || (Unassigned(bb.statements, |bb.statements|, v) && ReadsLocal(TerminatorReads(bb.terminator), v))
  }

  ghost predicate Defines(bb: BasicBlock, v: nat) {
    !Unassigned(bb.statements, |bb.statements|, v) || v in CallDefs(bb.terminator)
  }

  /** The facts about v after the first k statements. */
  ghost predicate SummarySoFar(ss: seq<Statement>, k: nat, m: Summary, v: nat)
    requires k <= |ss|
  {
    && (v in m.defs <==> !Unassigned(ss, k, v))
    && (v in m.uses <==> exists j :: 0 <= j < k && StatementReads(ss[j], v) && Unassigned(ss, j, v))
  }

  lemma SummaryStep(ss: seq<Statement>, k: nat, m: Summary, v: nat)
    requires k < |ss| && SummarySoFar(ss, k, m, v)
    ensures SummarySoFar(ss, k + 1, AfterStatement(m, ss[k]), v)
  {
    var after := AfterStatement(m, ss[k]);
    assert Unassigned(ss, k + 1, v) <==> Unassigned(ss, k, v) && !Assigns(ss[k], v);
    assert v in after.uses <==> v in m.uses || (StatementReads(ss[k], v) && v !in m.defs);
  }

  lemma {:induction false} SummaryRest(ss: seq<Statement>, k: nat, m: Summary, v: nat)
    requires k <= |ss| && SummarySoFar(ss, k, m, v)
    ensures SummarySoFar(ss, |ss|, AfterStatements(m, ss[k..]), v)
    decreases |ss| - k
  {
    hide AfterStatement, SummarySoFar;
    if k < |ss| {
      assert ss[k..][0] == ss[k] && ss[k..][1..] == ss[k + 1..];
      SummaryStep(ss, k, m, v);
      SummaryRest(ss, k + 1, AfterStatement(m, ss[k]), v);
    }
  }

  /** Uses are the exposed reads and defs the assigned locals of the block. */
  lemma SummaryExact(bb: BasicBlock, v: nat)
    ensures v in BlockSummary(bb).uses <==> Exposed(bb, v)
    ensures v in BlockSummary(bb).defs <==> Defines(bb, v)
  {
    hide AfterStatements;
    var empty := Summary({}, {});
    SummaryRest(bb.statements, 0, empty, v);
    assert bb.statements[0..] == bb.statements;
  }

  predicate NoStorageDead(ss: seq<Statement>) {
    forall k :: 0 <= k < |ss| ==> !ss[k].StorageDead?
  }

  /** Backward over the terminator: a call defines its destination after reading its operands. */
  function BeforeTerminator(t: Terminator, live: set<nat>): set<nat> {
    (live - CallDefs(t)) + LocalsOf(TerminatorReads(t))
  }

  /**
  The forward-built summary and the backward scan are the same set transformer on every block that
  ends no storage; with StorageDead the scan can only be smaller.
  */
  lemma SummaryIsScan(bb: BasicBlock, live: set<nat>)
    ensures var m, scan := BlockSummary(bb), Scan(bb.statements, BeforeTerminator(bb.terminator, live));
            && scan <= m.uses + (live - m.defs)
            && (NoStorageDead(bb.statements) ==> scan == m.uses + (live - m.defs))
  {
    hide Scan, BlockSummary;
    var ss, exit := bb.statements, BeforeTerminator(bb.terminator, live);
    assert ss[0..] == ss;
    forall v: nat
      ensures v in Scan(ss, exit) ==> v in BlockSummary(bb).uses + (live - BlockSummary(bb).defs)
      ensures NoStorageDead(ss) && v in BlockSummary(bb).uses + (live - BlockSummary(bb).defs) ==> v in Scan(ss, exit)
    {
      ScanExact(ss, 0, exit, v);
      SummaryExact(bb, v);
      ScanOfBlock(bb, exit, v);
    }
  }

  lemma ScanOfBlock(bb: BasicBlock, exit: set<nat>, v: nat)
    ensures Untouched(bb.statements, 0, |bb.statements|, v) ==> Unassigned(bb.statements, |bb.statements|, v)
    ensures ReadAhead(bb.statements, 0, v) ==>
              exists j :: 0 <= j < |bb.statements| && StatementReads(bb.statements[j], v)
                && Unassigned(bb.statements, j, v)
    ensures NoStorageDead(bb.statements) ==>
              && (Unassigned(bb.statements, |bb.statements|, v) ==> Untouched(bb.statements, 0, |bb.statements|, v))
              && ((exists j ::
                     0 <= j < |bb.statements| && StatementReads(bb.statements[j], v) && Unassigned(bb.statements, j, v))
                  ==> ReadAhead(bb.statements, 0, v))
  {
    var ss := bb.statements;
    if ReadAhead(ss, 0, v) {
      var j :| 0 <= j < |ss| && StatementReads(ss[j], v) && Untouched(ss, 0, j, v);
      assert Unassigned(ss, j, v);
    }
    if NoStorageDead(ss) && exists j :: 0 <= j < |ss| && StatementReads(ss[j], v) && Unassigned(ss, j, v) {
      var j :| 0 <= j < |ss| && StatementReads(ss[j], v) && Unassigned(ss, j, v);
      assert Untouched(ss, 0, j, v);
    }
  }

  // ----- paths through the control-flow graph -----

  /** Blocks path[0], path[1], ... lead along branches to an exposed read of v, and none before defines v. */
  ghost predicate LeadsToRead(body: Body, path: seq<nat>, v: nat) {
    && path != [] && path[0] < |body.blocks|
    && if |path| == 1 then Exposed(body.blocks[path[0]], v)
       else
         && path[1] in Successors(body.blocks[path[0]].terminator)
         && !Defines(body.blocks[path[0]], v)
         && LeadsToRead(body, path[1..], v)
  }

  lemma {:induction false} PathsAgree(body: Body, path: seq<nat>, v: nat)
    requires D.Valid(LivenessProblem(body))
    ensures LeadsToRead(body, path, v) <==> D.Carries(LivenessProblem(body), path, v)
    decreases |path|
  {
    hide BlockSummary, Exposed, Defines;
    if path != [] && path[0] < |body.blocks| {
      SummaryExact(body.blocks[path[0]], v);
      if |path| > 1 {
        PathsAgree(body, path[1..], v);
      }
    }
  }

  ghost predicate ReadInLaterBlock(body: Body, b: nat, v: nat)
    requires b < |body.blocks|
  {
    exists path :: path != [] && path[0] in Successors(body.blocks[b].terminator) && LeadsToRead(body, path, v)
  }

  lemma ArrivesIsLaterRead(body: Body, b: nat, v: nat)
    requires D.Valid(LivenessProblem(body)) && b < |body.blocks|
    ensures D.Arrives(LivenessProblem(body), b, v) <==> ReadInLaterBlock(body, b, v)
  {
    hide BlockSummary, LeadsToRead;
    var p, next := LivenessProblem(body), Successors(body.blocks[b].terminator);
    if D.Arrives(p, b, v) {
      var k :| 0 <= k < |p.from[b]| && D.Holds(p, p.from[b][k], v);
      var path :| path != [] && path[0] == p.from[b][k] && D.Carries(p, path, v);
      PathsAgree(body, path, v);
      assert path[0] in next;
    }
    if ReadInLaterBlock(body, b, v) {
      var path :| path != [] && path[0] in next && LeadsToRead(body, path, v);
      PathsAgree(body, path, v);
      var k :| 0 <= k < |next| && next[k] == path[0];
      assert D.Holds(p, p.from[b][k], v);
    }
  }

  /**
  v is read ahead of statement i of block b: by a later statement of the block, or in a later block
  on some path, with nothing in between that redefines v. The block's own terminator is not looked at.
  */
  ghost predicate UsedAhead(body: Body, b: nat, i: nat, v: nat)
    requires b < |body.blocks| && i <= |body.blocks[b].statements|
  {
    var ss := body.blocks[b].statements;
    ReadAhead(ss, i, v) || (Untouched(ss, i, |ss|, v) && ReadInLaterBlock(body, b, v))
  }

  /** The statement-level sets mean exactly that. */
  lemma StmtLivenessExact(body: Body, b: nat, i: nat, liveOut: set<nat>, v: nat)
    requires D.Valid(LivenessProblem(body)) && b < |body.blocks| && i <= |body.blocks[b].statements|
    requires v in liveOut <==> D.Arrives(LivenessProblem(body), b, v)
    ensures v in Scan(body.blocks[b].statements[i..], liveOut) <==> UsedAhead(body, b, i, v)
  {
    hide D.Arrives, ReadInLaterBlock, Scan, LivenessProblem;
    ArrivesIsLaterRead(body, b, v);
    ScanExact(body.blocks[b].statements, i, liveOut, v);
  }
}
