/**
Accesses that conflict with a needed loan, told without the checks the borrow checker makes, and
which of them it reports (crates/glyim-borrowck/src/lib.rs).
*/
module LoanConflicts {
  import opened Mir
  import opened Visitor
  import opened Borrowck
  import opened BorrowTable
  import opened LoanNeed
  import L = Liveness
  import P = Places

  // ----- runs of a body from a loan on -----

  /** A statement of a block, or its terminator when stmt is the number of statements. */
  datatype Point = Point(block: nat, stmt: nat)

  predicate Exists(body: Body, p: Point) {
    p.block < |body.blocks| && p.stmt <= |body.blocks[p.block].statements|
  }

  predicate Next(body: Body, p: Point, q: Point)
    requires Exists(body, p)
  {
    var bb := body.blocks[p.block];
    if p.stmt < |bb.statements| then q == Point(p.block, p.stmt + 1)
    else q.stmt == 0 && q.block in Successors(bb.terminator)
  }

  predicate IsRun(body: Body, run: seq<Point>) {
    && run != [] && Exists(body, run[|run| - 1])
    && (|run| > 1 ==> IsRun(body, run[..|run| - 1]) && Next(body, run[|run| - 2], run[|run| - 1]))
  }

  /** A run from just after the loan to point (b, i). */
  predicate Since(body: Body, loan: Loan, run: seq<Point>, b: nat, i: nat) {
    IsRun(body, run) && run[0] == Point(loan.block, loan.stmt + 1) && run[|run| - 1] == Point(b, i)
  }

  function TouchAt(body: Body, p: Point, v: nat): Touch
    requires Exists(body, p)
  {
    var bb := body.blocks[p.block];
    if p.stmt < |bb.statements| then StatementTouch(bb.statements[p.stmt], v) else TerminatorTouch(bb.terminator, v)
  }

  predicate IsWhole(place: Place, v: nat) {
    place.local as nat == v && place.projection == []
  }

  predicate ReplacedAt(body: Body, p: Point, v: nat)
    requires Exists(body, p)
  {
    var bb := body.blocks[p.block];
    if p.stmt < |bb.statements| then
      var s := bb.statements[p.stmt];
      (s.Assign? && IsWhole(s.dest, v)) || (s.StorageDead? && s.local as nat == v)
    else bb.terminator.Call? && IsWhole(bb.terminator.destination, v)
  }

  /** What is assigned is the reference in v, as it is or cast, or a borrow of what it refers to. */
  predicate PassesOn(s: Statement, v: nat) {
    && s.Assign? && s.dest.projection == []
    && match s.rvalue
       case Use(o) => !o.Constant? && IsWhole(o.place, v)
       case Cast(o) => !o.Constant? && IsWhole(o.place, v)
       case Ref(p, _) =>
         p.local as nat == v && p.projection != [] && p.projection[0] == Deref && Deref !in p.projection[1..]
       case _ => false
  }

  /** The locals that hold the reference once it was put in v and the run was followed to its last point. */
  ghost function Holders(body: Body, run: seq<Point>, v: nat): set<nat>
    requires IsRun(body, run)
    decreases |run|
  {
    if |run| == 1 then {v}
    else
      var p, held := run[|run| - 2], Holders(body, run[..|run| - 1], v);
      var ss := body.blocks[p.block].statements;
      (set w | w in held && !ReplacedAt(body, p, w))
      + if p.stmt < |ss| && exists w :: w in held && PassesOn(ss[p.stmt], w) then {ss[p.stmt].dest.local as nat} else {}
  }

  /** The run uses v ahead of its last point while v still holds the reference. */
  ghost predicate UsedOn(body: Body, run: seq<Point>, v: nat)
    requires IsRun(body, run)
    decreases |run|
  {
    && |run| > 1
    && var before := run[..|run| - 1];
       UsedOn(body, before, v) || (v in Holders(body, before, v) && Uses(TouchAt(body, run[|run| - 2], v)))
  }

  // ----- what a statement or terminator really does -----

  function OperandMoves(o: Operand): seq<Place> {
    if o.Move? then [o.place] else []
  }

  function OperandsMoves(os: seq<Operand>): seq<Place> {
    if os == [] then [] else OperandMoves(os[0]) + OperandsMoves(os[1..])
  }

  function RvalueMoves(r: Rvalue): seq<Place> {
    match r
    case BinaryOp(_, a, b) => OperandMoves(a) + OperandMoves(b)
    case Aggregate(os) => OperandsMoves(os)
    case Ref(_, _) => []
    case Discriminant(_) => []
    case Len(_) => []
    case _ => OperandMoves(r.operand)
  }

  function TerminatorMoves(t: Terminator): seq<Place> {
    match t
    case SwitchInt(o, _, _, _) => OperandMoves(o)
    case Call(f, args, _, _, _) => OperandMoves(f) + OperandsMoves(args)
    case Assert(o, _, _, _) => OperandMoves(o)
    case _ => []
  }

  /** The place is a local that chooses the element in one of these places. */
  predicate IndexOf(places: seq<Place>, place: Place) {
    place.projection == [] && exists k :: 0 <= k < |places| && Index(place.local) in places[k].projection
  }

  predicate MovesOut(body: Body, p: Point, place: Place)
    requires Exists(body, p)
  {
    var bb := body.blocks[p.block];
    if p.stmt < |bb.statements| then
      var s := bb.statements[p.stmt];
      s.Assign? && place in RvalueMoves(s.rvalue)
    else place in TerminatorMoves(bb.terminator)
  }

  predicate ReadsIndex(body: Body, p: Point, place: Place)
    requires Exists(body, p)
  {
    var bb := body.blocks[p.block];
    if p.stmt < |bb.statements| then
      var s := bb.statements[p.stmt];
      s.Assign? && IndexOf([s.dest] + RvalueReads(s.rvalue), place)
    else IndexOf(TerminatorReads(bb.terminator) + TerminatorWrites(bb.terminator), place)
  }

  predicate BorrowSets(body: Body, p: Point, place: Place)
    requires Exists(body, p)
  {
    var ss := body.blocks[p.block].statements;
    p.stmt < |ss| && IsBorrow(ss[p.stmt]) && place == ss[p.stmt].dest
  }

  /** The storage of a local ends; a return ends that of all but the one it returns. */
  predicate Frees(body: Body, p: Point, place: Place)
    requires Exists(body, p)
  {
    var bb := body.blocks[p.block];
    if p.stmt < |bb.statements| then
      bb.statements[p.stmt].StorageDead? && place == Place(bb.statements[p.stmt].local, [])
    else bb.terminator.Return? && place.projection == [] && place.local != 0
  }

  /** The first use of a two-phase reference on some run from its loan. */
  ghost predicate Activates(body: Body, loan: Loan, p: Point)
    requires Exists(body, p)
  {
    && TwoPhase(loan.kind) && Uses(TouchAt(body, p, loan.dest))
    && exists run ::
         && Since(body, loan, run, p.block, p.stmt)
         && loan.dest as nat in Holders(body, run, loan.dest) && !UsedOn(body, run, loan.dest)
  }

  ghost predicate ActivatesOther(body: Body, loans: seq<Loan>, e: Error, p: Point)
    requires Exists(body, p)
  {
    exists j :: 0 <= j < |loans| && j != e.loan && e.place == loans[j].place && Activates(body, loans[j], p)
  }

  /**
  What happens at a point. Besides the accesses the checker looks at: a borrowing assignment writes
  its target, a move empties the place, the end of storage (which what is borrowed through a
  reference outlives) and the activation of another loan are writes, and an index is read.
  */
  ghost predicate Accesses(body: Body, loans: seq<Loan>, e: Error, p: Point)
    requires Exists(body, p) && e.loan < |loans|
  {
    || Happens(body, e)
    || (e.access == Access.Read && ReadsIndex(body, p, e.place))
    || (e.access == Write &&
        (|| BorrowSets(body, p, e.place) || MovesOut(body, p, e.place)
         || (Frees(body, p, e.place) && Deref !in loans[e.loan].place.projection)
         || ActivatesOther(body, loans, e, p)))
  }

  /**
  On some run from the loan, the access comes while a holder of the reference is still needed, and
  the loan does not tolerate it: as a reservation only if it is a two-phase loan not used on that run.
  */
  ghost predicate RealConflict(body: Body, loans: seq<Loan>, e: Error) {
    && Exists(body, Point(e.block, e.stmt)) && e.loan < |loans|
    && Accesses(body, loans, e, Point(e.block, e.stmt)) && P.PlacesConflict(e.place, loans[e.loan].place)
    && exists run, v: nat :: ConflictsOn(body, loans[e.loan], e, run, v)
  }

  ghost predicate ConflictsOn(body: Body, loan: Loan, e: Error, run: seq<Point>, v: nat)
    requires Exists(body, Point(e.block, e.stmt))
  {
    && Since(body, loan, run, e.block, e.stmt)
    && v in Holders(body, run, loan.dest) && Needed(body, e.block, e.stmt, v)
    && !Tolerates(loan.kind, TwoPhase(loan.kind) && !UsedOn(body, run, loan.dest), UsageOf(e.access))
  }

  // ----- which of them are reported -----

  /** The checker reports an access to this place at this point as a conflict with this loan. */
  ghost predicate Caught(body: Body, loans: seq<Loan>, e: Error, inReservation: bool) {
    exists access :: Conflict(body, loans, e.(access := access), inReservation)
  }

  /** No access to the place that the checker looks at here offends a loan of this kind. */
  predicate Unseen(body: Body, e: Error, kind: BorrowKind, inReservation: bool)
    requires Exists(body, Point(e.block, e.stmt))
  {
    var bb := body.blocks[e.block];
    var exempt := kind.Shared? || inReservation;
    if e.stmt == |bb.statements| then
      e.place !in TerminatorWrites(bb.terminator) && (e.place in TerminatorReads(bb.terminator) ==> exempt)
    else
      var s := bb.statements[e.stmt];
      if !s.Assign? then true
      else if s.rvalue.Ref? then
        e.place == s.rvalue.borrowed ==>
          s.rvalue.kind == Shared && (kind == Shared || (kind.Mut? && inReservation))
      else e.place != s.dest && (e.place in RvalueReads(s.rvalue) ==> exempt)
  }

  lemma UnseenIs(body: Body, e: Error, kind: BorrowKind, inReservation: bool)
    requires Exists(body, Point(e.block, e.stmt))
    ensures Unseen(body, e, kind, inReservation) <==>
            forall access :: Happens(body, e.(access := access)) ==> !Offends(kind, access, inReservation)
  {
    forall access
      ensures Happens(body, e.(access := access)) && Offends(kind, access, inReservation) ==>
                !Unseen(body, e, kind, inReservation)
    {
    }
    if !Unseen(body, e, kind, inReservation) {
      var bb := body.blocks[e.block];
      if e.stmt < |bb.statements| && bb.statements[e.stmt].rvalue.Ref? {
        assert Happens(body, e.(access := Borrow(bb.statements[e.stmt].rvalue.kind)));
      } else {
        assert Happens(body, e.(access := Write)) || Happens(body, e.(access := Access.Read));
      }
    }
  }

  /**
  A real conflict goes unreported exactly when the checker looks at no offending access to the place
  there, or it has dropped the loan: it finds no read past an earlier touch, and the block's own
  terminator is the first to touch the reference or no path reads it first.
  */
  lemma MissedExactly(body: Body, loans: seq<Loan>, e: Error, inReservation: bool)
    requires RealConflict(body, loans, e)
    ensures var loan, v := loans[e.loan], loans[e.loan].dest as nat;
            !Caught(body, loans, e, inReservation) <==>
            || Unseen(body, e, loan.kind, inReservation)
            || (&& !ReadPast(body, e.block, e.stmt, v)
                && (NeverReadFirst(body, e.block, e.stmt, v) || TouchedByTerminator(body, e.block, e.stmt, v)))
  {
    hide L.UsedAhead, ReadPast, NeverReadFirst, TouchedByTerminator, P.PlacesConflict, Offends, Happens, Unseen,
         Accesses, ConflictsOn;
    UnseenIs(body, e, loans[e.loan].kind, inReservation);
    ActiveVersusNeeded(body, e.block, e.stmt, loans[e.loan].dest);
    forall access
      ensures Conflict(body, loans, e.(access := access), inReservation) <==>
              && Happens(body, e.(access := access)) && Offends(loans[e.loan].kind, access, inReservation)
              && L.UsedAhead(body, e.block, e.stmt, loans[e.loan].dest)
    {
    }
  }

  /**
  The conflicts the checker does not look at: the target of a borrow, a move out of what is shared or
  reserved, the end of storage, an activation, an index, or a use in what it takes for a reservation.
  */
  lemma UnseenKinds(body: Body, loans: seq<Loan>, e: Error, inReservation: bool)
    requires RealConflict(body, loans, e) && Unseen(body, e, loans[e.loan].kind, inReservation)
    ensures var p, kind := Point(e.block, e.stmt), loans[e.loan].kind;
            || BorrowSets(body, p, e.place)
            || (MovesOut(body, p, e.place) && (kind.Shared? || inReservation))
            || Frees(body, p, e.place)
            || ActivatesOther(body, loans, e, p)
            || ReadsIndex(body, p, e.place)
            || (inReservation && (e.access == Access.Read || (kind.Mut? && e.access == Borrow(Shared))))
  {
    hide Activates, ReadsIndex, Frees, Needed, Holders, Since, Offends, P.PlacesConflict, Unseen, Happens;
    var p := Point(e.block, e.stmt);
    UnseenIs(body, e, loans[e.loan].kind, inReservation);
    assert e.(access := e.access) == e;
    if Happens(body, e) {
      OffendsOnlyUnreserved(body, loans, e, inReservation);
    } else if MovesOut(body, p, e.place) && !BorrowSets(body, p, e.place) {
      MovesAreReads(body, e);
      MoveExempt(loans[e.loan].kind, inReservation);
    }
  }

  lemma OffendsOnlyUnreserved(body: Body, loans: seq<Loan>, e: Error, inReservation: bool)
    requires RealConflict(body, loans, e) && !Offends(loans[e.loan].kind, e.access, inReservation)
    ensures inReservation
            && (e.access == Access.Read || (loans[e.loan].kind.Mut? && e.access == Borrow(Shared)))
  {
    hide Accesses, Needed, Holders, UsedOn, P.PlacesConflict;
    var run, v: nat :| ConflictsOn(body, loans[e.loan], e, run, v);
    OffendsTable(loans[e.loan].kind, e.access, TwoPhase(loans[e.loan].kind) && !UsedOn(body, run, loans[e.loan].dest));
  }

  lemma MoveExempt(kind: BorrowKind, inReservation: bool)
    requires !Offends(kind, Access.Read, inReservation)
    ensures kind.Shared? || inReservation
  {
  }

  lemma {:induction false} OperandsMovesRead(os: seq<Operand>, place: Place)
    requires place in OperandsMoves(os)
    ensures place in OperandsReads(os)
  {
    if place !in OperandMoves(os[0]) {
      OperandsMovesRead(os[1..], place);
    }
  }

  /** To the checker a move is a read. */
  lemma MovesAreReads(body: Body, e: Error)
    requires Exists(body, Point(e.block, e.stmt)) && MovesOut(body, Point(e.block, e.stmt), e.place)
    ensures Happens(body, e.(access := Access.Read))
  {
    var bb := body.blocks[e.block];
    if e.stmt < |bb.statements| {
      var r := bb.statements[e.stmt].rvalue;
      if r.Aggregate? {
        OperandsMovesRead(r.operands, e.place);
      }
    } else if bb.terminator.Call? && e.place in OperandsMoves(bb.terminator.args) {
      OperandsMovesRead(bb.terminator.args, e.place);
    }
  }

  /** No statement of the body passes the reference in v on. */
  predicate NeverPassedOn(body: Body, v: nat) {
    forall b, i :: 0 <= b < |body.blocks| && 0 <= i < |body.blocks[b].statements| ==>
                     !PassesOn(body.blocks[b].statements[i], v)
  }

  lemma {:induction false} HeldAlone(body: Body, run: seq<Point>, v: nat)
    requires IsRun(body, run) && NeverPassedOn(body, v)
    ensures Holders(body, run, v) <= {v}
    decreases |run|
  {
    hide PassesOn, ReplacedAt, Next;
    if |run| > 1 {
      HeldAlone(body, run[..|run| - 1], v);
      assert Exists(body, run[..|run| - 1][|run| - 2]);
    }
  }

  /**
  No real conflict that the checker looks at goes unreported if the reference is never passed on,
  written through or returned, except where the block's own terminator is the first to touch it.
  */
  lemma NoneMissed(body: Body, loans: seq<Loan>, e: Error, inReservation: bool)
    requires RealConflict(body, loans, e) && !Unseen(body, e, loans[e.loan].kind, inReservation)
    requires var v := loans[e.loan].dest as nat; NeverPassedOn(body, v) && NeverWrittenThrough(body, v) && v != 0
    requires !TouchedByTerminator(body, e.block, e.stmt, loans[e.loan].dest)
    ensures Caught(body, loans, e, inReservation)
  {
    hide L.UsedAhead, Needed, TouchedByTerminator, NeverWrittenThrough, NeverPassedOn, P.PlacesConflict, Offends,
         Happens, Unseen, Accesses, Holders, IsRun;
    var loan := loans[e.loan];
    var run, v: nat :| ConflictsOn(body, loan, e, run, v);
    HeldAlone(body, run, loan.dest);
    OnlyTerminatorDiffers(body, e.block, e.stmt, loan.dest);
    UnseenIs(body, e, loan.kind, inReservation);
    var access :| Happens(body, e.(access := access)) && Offends(loan.kind, access, inReservation);
    assert Conflict(body, loans, e.(access := access), inReservation);
  }
}
