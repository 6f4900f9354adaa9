/**
Moves told statement by statement along whole paths, and how far the block summaries of the dataflow
agree (crates/glyim-borrowck/src/move_analysis.rs).
*/
module MoveFlow {
  import opened Mir
  import opened Visitor
  import opened Moves
  import D = Dataflow

  /** Blocks ..., path[1], path[0] follow branches from one that moves v last; nothing after that initialises it. */
  ghost predicate StaysMoved(body: Body, c: Ctx, w: Which, path: seq<nat>, v: nat) {
    && path != [] && path[0] < |body.blocks|
    && var bb := body.blocks[path[0]];
       && v !in CallInits(c, bb.terminator)
       && if |path| == 1 then SetLast(c, w, bb.statements, |bb.statements|, v)
          else
            && NoInit(c, bb.statements, 0, |bb.statements|, v)
            && path[1] < |body.blocks| && path[0] in Successors(body.blocks[path[1]].terminator)
            && !(w.Dead? && path[0] == 0)
            && StaysMoved(body, c, w, path[1..], v)
  }

  /** The block a path comes from does not initialise v before it moves it. */
  ghost predicate PlainOrigin(body: Body, c: Ctx, w: Which, path: seq<nat>, v: nat) {
    && path != [] && path[|path| - 1] < |body.blocks|
    && !MovedAfterInit(c, w, body.blocks[path[|path| - 1]], v)
  }

  ghost predicate StaysMovedInto(body: Body, c: Ctx, w: Which, path: seq<nat>, b: nat, v: nat) {
    && !(w.Dead? && b == 0)
    && StaysMoved(body, c, w, path, v) && path[0] < |body.blocks| && b in Successors(body.blocks[path[0]].terminator)
  }

  lemma OriginExact(c: Ctx, w: Which, bb: BasicBlock, v: nat)
    ensures SomeGen(c, w, bb.statements, v) && !Initialises(c, bb, v) <==>
            && SetLast(c, w, bb.statements, |bb.statements|, v) && v !in CallInits(c, bb.terminator)
            && !MovedAfterInit(c, w, bb, v)
  {
    hide Gen, Inits, CallInits;
    var ss := bb.statements;
    if SomeGen(c, w, ss, v) && NoInit(c, ss, 0, |ss|, v) {
      var j :| 0 <= j < |ss| && v in Gen(c, w, ss[j]);
      assert NoInit(c, ss, j + 1, |ss|, v);
    }
  }

  /** The dataflow follows exactly the paths whose first block does not initialise v before moving it. */
  lemma {:induction false} FlowsExact(body: Body, c: Ctx, w: Which, path: seq<nat>, v: nat)
    ensures Flows(body, c, w, path, v) <==> StaysMoved(body, c, w, path, v) && PlainOrigin(body, c, w, path, v)
    decreases |path|
  {
    hide SomeGen, SetLast, CallInits, MovedAfterInit, Successors;
    if path != [] && path[0] < |body.blocks| {
      OriginExact(c, w, body.blocks[path[0]], v);
      if |path| > 1 {
        FlowsExact(body, c, w, path[1..], v);
      }
    }
  }

  /**
  moved_in(b), or dead_in(b), holds v exactly when v stays moved along some path to b that comes from a
  block without an earlier initialisation of v.
  */
  lemma ArrivesExact(body: Body, c: Ctx, w: Which, preds: seq<seq<nat>>, b: nat, v: nat)
    requires Predecessors(body, preds) && D.Valid(MoveProblem(body, c, w, preds)) && b < |body.blocks|
    ensures D.Arrives(MoveProblem(body, c, w, preds), b, v) <==>
            exists path :: StaysMovedInto(body, c, w, path, b, v) && PlainOrigin(body, c, w, path, v)
  {
    hide D.Arrives, PlainOrigin, Successors, MoveProblem;
    ArrivesIsFlow(body, c, w, preds, b, v);
    if FlowsInto(body, c, w, b, v) {
      var path :| Flows(body, c, w, path, v) && path[0] < |body.blocks|
        && b in Successors(body.blocks[path[0]].terminator);
      FlowsExact(body, c, w, path, v);
      assert StaysMovedInto(body, c, w, path, b, v);
    }
    if path :| StaysMovedInto(body, c, w, path, b, v) && PlainOrigin(body, c, w, path, v) {
      FlowsExact(body, c, w, path, v);
    }
  }

  /** In every block the paths moved and the paths initialised are different ones. */
  ghost predicate AllDisjoint(body: Body, c: Ctx, w: Which) {
    forall b :: 0 <= b < |body.blocks| ==>
                  AllGen(c, w, body.blocks[b].statements) !! AllInits(c, body.blocks[b].statements)
  }

  lemma DisjointOrigin(c: Ctx, w: Which, bb: BasicBlock, v: nat)
    requires AllGen(c, w, bb.statements) !! AllInits(c, bb.statements)
    ensures !MovedAfterInit(c, w, bb, v)
  {
    hide Gen, Inits, CallInits;
    var ss := bb.statements;
    assert ss[..|ss|] == ss;
    TotalsExact(c, w, ss, |ss|, v);
  }

  lemma {:induction false} PathInBody(body: Body, c: Ctx, w: Which, path: seq<nat>, v: nat)
    requires StaysMoved(body, c, w, path, v)
    ensures path != [] && path[|path| - 1] < |body.blocks|
    decreases |path|
  {
    hide SetLast, CallInits, NoInit, Successors;
    if |path| > 1 {
      PathInBody(body, c, w, path[1..], v);
    }
  }

  /** Where every block's moves and inits are disjoint, the sets are what the statements say along all paths. */
  lemma DisjointBodyExact(body: Body, c: Ctx, w: Which, preds: seq<seq<nat>>, b: nat, v: nat)
    requires Predecessors(body, preds) && D.Valid(MoveProblem(body, c, w, preds)) && b < |body.blocks|
    requires AllDisjoint(body, c, w)
    ensures D.Arrives(MoveProblem(body, c, w, preds), b, v) <==> exists path :: StaysMovedInto(body, c, w, path, b, v)
  {
    hide D.Arrives, StaysMoved, MovedAfterInit, Successors, MoveProblem, AllGen, AllInits;
    ArrivesExact(body, c, w, preds, b, v);
    if path :| StaysMovedInto(body, c, w, path, b, v) {
      PathInBody(body, c, w, path, v);
      DisjointOrigin(c, w, body.blocks[path[|path| - 1]], v);
      assert PlainOrigin(body, c, w, path, v);
    }
  }
}
