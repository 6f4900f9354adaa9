/**
Where the move check departs from the order in which a body really moves and initialises: an assignment
to what it moves, and terminators (crates/glyim-borrowck/src/move_analysis.rs).
*/
module MoveOrder {
  import opened Mir
  import opened Visitor
  import opened Moves
  import opened Wrappers

  // ----- an assignment that moves what it initialises -----

  /** Operands are moved out first, and then the destination gets its value. */
  function InOrder(c: Ctx, w: Which, s: Statement, before: set<nat>): set<nat> {
    (before + Gen(c, w, s)) - Inits(c, s)
  }

  /** An operand moves path v. */
  ghost predicate MovesPath(c: Ctx, os: seq<Operand>, v: nat) {
    exists k :: 0 <= k < |os| && os[k].Move? && !c.copies(os[k].place) && v in Group(c.arena, os[k].place)
  }

  lemma {:induction false} OperandMovesAre(c: Ctx, os: seq<Operand>, v: nat)
    ensures v in OperandMoves(c, os) <==> MovesPath(c, os, v)
  {
    hide Group;
    if os != [] {
      OperandMovesAre(c, os[1..], v);
      if k :| 0 <= k < |os| && os[k].Move? && !c.copies(os[k].place) && v in Group(c.arena, os[k].place) {
        assert k > 0 ==> os[k] == os[1..][k - 1];
      }
      if k :| 0 <= k < |os[1..]| && os[1..][k].Move? && !c.copies(os[1..][k].place)
              && v in Group(c.arena, os[1..][k].place) {
        assert os[1..][k] == os[k + 1];
      }
    }
  }

  /**
  The check leaves a path moved that has a value again exactly when the statement is an assignment
  that moves the path and whose destination initialises it; it errs in no other way.
  */
  lemma SelfMoveExact(c: Ctx, s: Statement, before: set<nat>, v: nat)
    ensures v in Apply(c, Moved, s, before) && v !in InOrder(c, Moved, s, before) <==>
            s.Assign? && v in Group(c.arena, s.dest) && MovesPath(c, RvalueOperands(s.rvalue), v)
    ensures v in InOrder(c, Moved, s, before) ==> v in Apply(c, Moved, s, before)
  {
    hide Group, OperandMoves, MovesPath;
    if s.Assign? {
      OperandMovesAre(c, RvalueOperands(s.rvalue), v);
    }
  }

  // ----- bodies over four locals that are not copied -----

  lemma MoveOf(c: Ctx, p: Place)
    requires c.copies == (_ => false)
    ensures RvalueOperands(Use(Move(p))) == [Move(p)] && OperandMoves(c, [Move(p)]) == Group(c.arena, p)
    ensures OperandUses([Move(p)]) == [Usage(p, true)]
  {
    hide Group;
    assert [Move(p)][1..] == [];
  }

  lemma MoveOfNone(c: Ctx, value: MirConst)
    ensures OperandMoves(c, RvalueOperands(Use(Constant(value)))) == {}
    ensures OperandUses(RvalueOperands(Use(Constant(value)))) == []
  {
    assert [Constant(value)][1..] == [];
  }

  /** x := 5; x := move x; y := move x. */
  function SelfMoveBody(): Body {
    var x, y := Place(1, []), Place(2, []);
    Body([BasicBlock([Assign(x, Use(Constant(CInt(5)))), Assign(x, Use(Move(x))), Assign(y, Use(Move(x)))], Return)],
         [TUnit, TOther, TOther, TOther])
  }

  /** x has a value when it is moved to y, and yet its use there is reported. */
  lemma SelfMoveReported(c: Ctx)
    requires Tracks(c.arena, [None, None, None, None]) && c.copies == (_ => false)
    ensures var x, s := Find(c.arena, Place(1, [])), SelfMoveBody().blocks[0].statements[1];
            x.Some? && x.value !in InOrder(c, Moved, s, {})
    ensures exists kind :: UseAfterMove(SelfMoveBody(), c, MoveError(kind, Place(1, []), 0, 2))
  {
    hide UseAfterMove, Group, Find, Tracks, Wrong;
    var body, p := SelfMoveBody(), Place(1, []);
    var ss := body.blocks[0].statements;
    XFound(c);
    var x := Find(c.arena, p).value;
    MoveOf(c, p);
    assert x in Gen(c, Moved, ss[1]);
    assert NoInit(c, ss, 2, 2, x) && SetLast(c, Moved, ss, 2, x);
    assert HoldsAt(body, c, Moved, 0, 2, x) && Touches(c, p, x);
    StraightMeans(body, c, Moved, 2);
    StraightMeans(body, c, Dead, 2);
    UseReportedExactly(body, c, 0, 2, p, Scan(c, Moved, ss[..2], {}), Scan(c, Dead, ss[..2], {}));
    WrongMove(body, c, x);
  }

  lemma WrongMove(body: Body, c: Ctx, x: nat)
    requires body == SelfMoveBody() && HoldsAt(body, c, Moved, 0, 2, x) && Touches(c, Place(1, []), x)
    requires c.copies == (_ => false)
    ensures Wrong(body, c, 0, 2, Usage(Place(1, []), true))
    ensures Usage(Place(1, []), true) in StatementUses(body.blocks[0].statements[2])
  {
    hide HoldsAt, Touches;
    MoveOf(c, Place(1, []));
  }

  /** With one block nothing flows in, and the scan from the empty set gives what holds. */
  lemma StraightMeans(body: Body, c: Ctx, w: Which, i: nat)
    requires |body.blocks| == 1 && body.blocks[0].terminator == Return && i <= |body.blocks[0].statements|
    ensures Means(body, c, w, 0, i, Scan(c, w, body.blocks[0].statements[..i], {}))
  {
    hide Scan, SetLast, NoInit;
    assert Successors(Return) == [];
    forall v: nat
      ensures v in Scan(c, w, body.blocks[0].statements[..i], {}) <==> HoldsAt(body, c, w, 0, i, v)
    {
      ScanExact(c, w, body.blocks[0].statements, i, {}, v);
    }
  }

  // ----- terminators -----

  /** x := 5; z := f(move x); then in the next block y := move x; z := f(move x). */
  function CallMovesBody(): Body {
    var x, y, z, f := Place(1, []), Place(2, []), Place(3, []), Constant(CUnit);
    Body([BasicBlock([Assign(x, Use(Constant(CInt(5))))], Call(f, [Move(x)], z, Some(1), None)),
          BasicBlock([Assign(y, Use(Move(x)))], Call(f, [Move(x)], z, None, None))],
         [TUnit, TOther, TOther, TOther])
  }

  /**
  What a call moves or uses is never looked at: x is moved three times over, moved for certain when
  the last call moves it again, and nothing is reported.
  */
  lemma CallMovesMissed(c: Ctx, e: MoveError)
    requires Tracks(c.arena, [None, None, None, None]) && c.copies == (_ => false)
    ensures TargetsExist(CallMovesBody()) && Trackable(CallMovesBody())
    ensures var body, x := CallMovesBody(), Find(c.arena, Place(1, []));
            && x.Some? && HoldsAt(body, c, Moved, 1, 1, x.value)
            && body.blocks[0].terminator.args == body.blocks[1].terminator.args == [Move(Place(1, []))]
    ensures !UseAfterMove(CallMovesBody(), c, e)
  {
    hide UseAfterMove, HoldsAt, Tracks, Group, Find;
    var body := CallMovesBody();
    XFound(c);
    var x := Find(c.arena, Place(1, [])).value;
    CallMovesTracked();
    CallMovesHolds(c, x);
    if UseAfterMove(body, c, e) {
      UsePoint(body, c, e);
      CallMovesUses(c, e.block, e.stmt);
      UseTouches(body, c, e, x);
    }
  }

  lemma CallMovesTracked()
    ensures TargetsExist(CallMovesBody()) && Trackable(CallMovesBody())
  {
    var body := CallMovesBody();
    assert Successors(body.blocks[0].terminator) == [1] && Successors(body.blocks[1].terminator) == [];
    assert RvalueReads(body.blocks[0].statements[0].rvalue) == [];
    assert RvalueReads(body.blocks[1].statements[0].rvalue) == [Place(1, [])];
  }

  lemma CallMovesUses(c: Ctx, b: nat, i: nat)
    requires c.copies == (_ => false) && b < 2 && i < |CallMovesBody().blocks[b].statements|
    ensures forall u :: u in StatementUses(CallMovesBody().blocks[b].statements[i]) ==> u.place == Place(1, [])
  {
    MoveOf(c, Place(1, []));
    MoveOfNone(c, CInt(5));
  }

  lemma CallMovesHolds(c: Ctx, x: nat)
    requires Group(c.arena, Place(1, [])) == {x} && x !in Group(c.arena, Place(2, [])) + Group(c.arena, Place(3, []))
    requires c.copies == (_ => false)
    ensures HoldsAt(CallMovesBody(), c, Moved, 1, 1, x)
    ensures forall b: nat :: b < 2 ==>
              !HoldsAt(CallMovesBody(), c, Moved, b, 0, x) && !HoldsAt(CallMovesBody(), c, Dead, b, 0, x)
  {
    hide Group;
    var body := CallMovesBody();
    MoveOf(c, Place(1, []));
    var ss, ts := body.blocks[0].statements, body.blocks[1].statements;
    assert x in Gen(c, Moved, ts[0]);
    assert NoInit(c, ts, 1, 1, x) && SetLast(c, Moved, ts, 1, x);
    assert Successors(body.blocks[0].terminator) == [1] && Successors(body.blocks[1].terminator) == [];
    assert x in Inits(c, ss[0]) && Initialises(c, body.blocks[0], x);
  }
}
