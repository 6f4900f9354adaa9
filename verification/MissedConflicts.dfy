/** Bodies on which the borrow checker misses a conflict (crates/glyim-borrowck/src/lib.rs). */
module MissedConflicts {
  import opened Mir
  import opened Visitor
  import opened Borrowck
  import opened LoanNeed
  import opened LoanConflicts
  import L = Liveness
  import P = Places
  import R = Reservation

  // ----- bodies of one block -----

  /** The statements and a return, over n locals. */
  function Straight(ss: seq<Statement>, n: nat): Body {
    Body([BasicBlock(ss, Return)], seq(n, _ => TOther))
  }

  ghost predicate WellFormed(body: Body) {
    TargetsExist(body) && LocalsExist(body)
  }

  predicate Within(s: Statement, n: nat) {
    s.Assign? ==>
      var places := RvalueReads(s.rvalue);
      s.dest.local as nat < n && forall k :: 0 <= k < |places| ==> places[k].local as nat < n
  }

  lemma StraightWellFormed(ss: seq<Statement>, n: nat)
    requires forall i :: 0 <= i < |ss| ==> Within(ss[i], n)
    ensures WellFormed(Straight(ss, n))
  {
    assert Successors(Return) == [] && TerminatorReads(Return) == [];
    assert BlockLocalsExist(BasicBlock(ss, Return), n);
  }

  /** What an assignment with one place to read touches. */
  lemma OneRead(s: Statement, p: Place)
    requires s.Assign?
             && (s.rvalue == Use(Copy(p)) || s.rvalue == Use(Move(p)) || (s.rvalue.Ref? && s.rvalue.borrowed == p))
    ensures RvalueReads(s.rvalue) == [p]
    ensures forall v: nat :: StatementTouch(s, v) == if p.local as nat == v then Touch.Read else WriteTouch(s.dest, v)
  {
    assert RvalueReads(s.rvalue)[0] == p;
  }

  lemma NoRead(s: Statement)
    requires s.Assign? && s.rvalue.Use? && s.rvalue.operand.Constant?
    ensures RvalueReads(s.rvalue) == []
    ensures forall v: nat :: StatementTouch(s, v) == WriteTouch(s.dest, v)
  {
  }

  lemma StraightNeeded(ss: seq<Statement>, n: nat, i: nat, v: nat)
    requires i <= |ss|
    requires Uses(StatementsTouch(ss, i, v)) || (StatementsTouch(ss, i, v).Untouched? && v == 0)
    ensures Needed(Straight(ss, n), 0, i, v)
  {
    hide StatementsTouch;
    var body := Straight(ss, n);
    assert TerminatorReads(Return) == [];
    assert From(body, [0], 0) && Uses(PathTouch(body, [0], i, v));
  }

  lemma NothingLeft(ss: seq<Statement>, v: nat)
    ensures StatementsTouch(ss, |ss|, v).Untouched?
  {
  }

  /** In one block a loan is active exactly when a later statement is the first to touch it, by a read. */
  lemma StraightConflict(ss: seq<Statement>, n: nat, loans: seq<Loan>, e: Error, inReservation: bool)
    requires Conflict(Straight(ss, n), loans, e, inReservation)
    ensures e.block == 0 && e.stmt < |ss| && e.loan < |loans|
    ensures AtStatement(ss[e.stmt], e.access, e.place) && e.place.local == loans[e.loan].place.local
    ensures StatementsTouch(ss, e.stmt, loans[e.loan].dest).Read?
    ensures Offends(loans[e.loan].kind, e.access, inReservation)
  {
    hide StatementsTouch, AtStatement, Offends, L.UsedAhead;
    assert TerminatorReads(Return) == [];
    StraightActive(ss, n, e.stmt, loans[e.loan].dest);
  }

  lemma StraightActive(ss: seq<Statement>, n: nat, i: nat, v: nat)
    requires i <= |ss| && L.UsedAhead(Straight(ss, n), 0, i, v)
    ensures i < |ss| && StatementsTouch(ss, i, v).Read?
  {
    hide StatementsTouch, L.ReadAhead, L.Untouched;
    StatementsTouchIs(ss, i, v);
    assert Successors(Return) == [];
    NothingLeft(ss, v);
  }

  /** The borrows of a body are the first m statements of its first block. */
  lemma FirstLoans(body: Body, m: nat, loans: seq<Loan>)
    requires 1 <= m <= 2 && AllLoans(body, loans) && |body.blocks| > 0 && m <= |body.blocks[0].statements|
    requires forall b, i :: 0 <= b < |body.blocks| && 0 <= i < |body.blocks[b].statements| ==>
                              (IsBorrow(body.blocks[b].statements[i]) <==> b == 0 && i < m)
    ensures |loans| == m && forall k :: 0 <= k < m ==> loans[k] == LoanAt(body, 0, k)
  {
    assert LoanAt(body, 0, 0) in loans && (m == 2 ==> LoanAt(body, 0, 1) in loans);
    forall k | 0 <= k < |loans|
      ensures loans[k].block == 0 && loans[k].stmt < m && loans[k] == LoanAt(body, 0, loans[k].stmt)
    {
      assert IsLoan(body, loans[k]);
    }
    assert |loans| > 1 ==> Earlier(loans[0].block, loans[0].stmt, loans[1].block, loans[1].stmt);
    assert |loans| > 2 ==> Earlier(loans[1].block, loans[1].stmt, loans[2].block, loans[2].stmt);
  }

  /** The run that is at the point after its loan. */
  lemma ShortRun(body: Body, loan: Loan)
    requires IsLoan(body, loan)
    ensures var run, next := [Point(loan.block, loan.stmt + 1)], loan.stmt + 1;
            && Since(body, loan, run, loan.block, next)
            && Holders(body, run, loan.dest) == {loan.dest as nat} && !UsedOn(body, run, loan.dest)
  {
  }

  /** The run that goes one statement further. */
  lemma NextRun(body: Body, loan: Loan)
    requires IsLoan(body, loan) && loan.stmt + 1 < |body.blocks[loan.block].statements|
    ensures var run, end := [Point(loan.block, loan.stmt + 1), Point(loan.block, loan.stmt + 2)], loan.stmt + 2;
            var s, v := body.blocks[loan.block].statements[loan.stmt + 1], loan.dest as nat;
            && Since(body, loan, run, loan.block, end)
            && (!(s.Assign? && IsWhole(s.dest, v)) && !s.StorageDead? ==> v in Holders(body, run, v))
            && (PassesOn(s, v) ==> s.dest.local as nat in Holders(body, run, v))
            && (UsedOn(body, run, v) <==> Uses(StatementTouch(s, v)))
  {
    hide PassesOn, StatementTouch;
    var first, second := Point(loan.block, loan.stmt + 1), Point(loan.block, loan.stmt + 2);
    ShortRun(body, loan);
    assert [first, second][..1] == [first];
    assert Next(body, first, second) && IsRun(body, [first]);
  }

  /** What the checker's cache says on a body of one block: no path comes back to the loan. */
  lemma StraightReserved(ss: seq<Statement>, n: nat, loans: seq<Loan>, e: Error, fuel: nat)
    requires WellFormed(Straight(ss, n)) && AllLoans(Straight(ss, n), loans) && fuel > 0
    ensures Finished(Straight(ss, n), loans, fuel)
    ensures Conflict(Straight(ss, n), loans, e, StillReserved(Straight(ss, n), loans, e, fuel)) <==>
            Conflict(Straight(ss, n), loans, e, UnreadSince(Straight(ss, n), loans, e))
  {
    hide Conflict, Finished, StillReserved, UnreadSince, AllQuiet, LocalsExist;
    StraightQuiet(ss, n, loans);
    QuietCheckExact(Straight(ss, n), loans, fuel, e);
  }

  lemma StraightQuiet(ss: seq<Statement>, n: nat, loans: seq<Loan>)
    requires TargetsExist(Straight(ss, n)) && AllLoans(Straight(ss, n), loans)
    ensures AllQuiet(Straight(ss, n), loans)
  {
    var body := Straight(ss, n);
    assert Successors(Return) == [];
    forall k | 0 <= k < |loans|
      ensures Quiet(body, loans[k])
    {
      var g := LoanCfg(body, loans[k]);
      LoanCfgValid(body, loans[k]);
      forall path
        ensures !(R.ReservedPath(g, path) && path[|path| - 1] == 0)
      {
        assert g.next == [[]];
      }
    }
  }

  // ----- the write of a borrowing assignment's target -----

  /** r := &p; p := &b; z := r. */
  function TargetBody(): seq<Statement> {
    var r, p, b, z := Place(1, []), Place(2, []), Place(3, []), Place(4, []);
    [Assign(r, Ref(p, Shared)), Assign(p, Ref(b, Shared)), Assign(z, Use(Copy(r)))]
  }

  lemma TargetTouches()
    ensures var ss := TargetBody();
            && StatementsTouch(ss, 1, 1).Read? && StatementsTouch(ss, 1, 2).Redefined?
            && RvalueReads(ss[0].rvalue) == [Place(2, [])] && RvalueReads(ss[1].rvalue) == [Place(3, [])]
            && RvalueReads(ss[2].rvalue) == [Place(1, [])]
  {
    var ss := TargetBody();
    OneRead(ss[0], Place(2, []));
    OneRead(ss[1], Place(3, []));
    OneRead(ss[2], Place(1, []));
    assert StatementsTouch(ss, 2, 1).Read?;
  }

  /** The assignment of a borrow to p while r still needs it is unreported, as is everything else in the body. */
  lemma BorrowTargetMissed(loans: seq<Loan>, e: Error, inReservation: bool)
    requires AllLoans(Straight(TargetBody(), 5), loans)
    ensures WellFormed(Straight(TargetBody(), 5)) && |loans| == 2
    ensures RealConflict(Straight(TargetBody(), 5), loans, Error(Write, Place(2, []), 0, 0, 1))
    ensures !Conflict(Straight(TargetBody(), 5), loans, e, inReservation)
  {
    hide AllLoans, Conflict, Needed, WellFormed, Since, Holders, UsedOn, StatementsTouch;
    var ss, body := TargetBody(), Straight(TargetBody(), 5);
    TargetTouches();
    StraightWellFormed(ss, 5);
    FirstLoans(body, 2, loans);
    ShortRun(body, loans[0]);
    StraightNeeded(ss, 5, 1, 1);
    assert ConflictsOn(body, loans[0], Error(Write, Place(2, []), 0, 0, 1), [Point(0, 1)], 1);
    if Conflict(body, loans, e, inReservation) {
      StraightConflict(ss, 5, loans, e, inReservation);
    }
  }

  // ----- a move -----

  /** r := &p; z := move p; w := r. */
  function MoveBody(): seq<Statement> {
    var r, p, z, w := Place(1, []), Place(2, []), Place(3, []), Place(4, []);
    [Assign(r, Ref(p, Shared)), Assign(z, Use(Move(p))), Assign(w, Use(Copy(r)))]
  }

  /** p is moved away while r still needs it, unreported as is everything else in the body. */
  lemma MoveOutMissed(loans: seq<Loan>, e: Error, inReservation: bool)
    requires AllLoans(Straight(MoveBody(), 5), loans)
    ensures WellFormed(Straight(MoveBody(), 5)) && |loans| == 1
    ensures RealConflict(Straight(MoveBody(), 5), loans, Error(Write, Place(2, []), 0, 0, 1))
    ensures !Conflict(Straight(MoveBody(), 5), loans, e, inReservation)
  {
    hide AllLoans, Conflict, Needed, WellFormed, Since, Holders, UsedOn;
    var ss, body := MoveBody(), Straight(MoveBody(), 5);
    OneRead(ss[0], Place(2, []));
    OneRead(ss[1], Place(2, []));
    OneRead(ss[2], Place(1, []));
    assert StatementsTouch(ss, 2, 1).Read? && StatementsTouch(ss, 1, 1).Read?;
    StraightWellFormed(ss, 5);
    FirstLoans(body, 1, loans);
    ShortRun(body, loans[0]);
    StraightNeeded(ss, 5, 1, 1);
    assert ConflictsOn(body, loans[0], Error(Write, Place(2, []), 0, 0, 1), [Point(0, 1)], 1);
    if Conflict(body, loans, e, inReservation) {
      StraightConflict(ss, 5, loans, e, inReservation);
    }
  }

  // ----- the end of storage -----

  /** r := &p; the storage of p ends; w := r. */
  function DeadBody(): seq<Statement> {
    var r, p, w := Place(1, []), Place(2, []), Place(3, []);
    [Assign(r, Ref(p, Shared)), StorageDead(2), Assign(w, Use(Copy(r)))]
  }

  /** The storage of p ends while r still needs it, unreported as is everything else in the body. */
  lemma StorageEndMissed(loans: seq<Loan>, e: Error, inReservation: bool)
    requires AllLoans(Straight(DeadBody(), 4), loans)
    ensures WellFormed(Straight(DeadBody(), 4)) && |loans| == 1
    ensures RealConflict(Straight(DeadBody(), 4), loans, Error(Write, Place(2, []), 0, 0, 1))
    ensures !Conflict(Straight(DeadBody(), 4), loans, e, inReservation)
  {
    hide AllLoans, Conflict, Needed, WellFormed, Since, Holders, UsedOn;
    var ss, body := DeadBody(), Straight(DeadBody(), 4);
    OneRead(ss[0], Place(2, []));
    OneRead(ss[2], Place(1, []));
    assert StatementTouch(ss[1], 1).Untouched?;
    assert StatementsTouch(ss, 2, 1).Read? && StatementsTouch(ss, 1, 1).Read?;
    StraightWellFormed(ss, 4);
    FirstLoans(body, 1, loans);
    ShortRun(body, loans[0]);
    StraightNeeded(ss, 4, 1, 1);
    assert ConflictsOn(body, loans[0], Error(Write, Place(2, []), 0, 0, 1), [Point(0, 1)], 1);
    if Conflict(body, loans, e, inReservation) {
      StraightConflict(ss, 4, loans, e, inReservation);
    }
  }

  /** The returned reference is to a local of the body itself. */
  function DanglingBody(): seq<Statement> {
    [Assign(Place(0, []), Ref(Place(1, []), Shared))]
  }

  lemma DanglingMissed(loans: seq<Loan>, e: Error, inReservation: bool)
    requires AllLoans(Straight(DanglingBody(), 2), loans)
    ensures WellFormed(Straight(DanglingBody(), 2)) && |loans| == 1
    ensures RealConflict(Straight(DanglingBody(), 2), loans, Error(Write, Place(1, []), 0, 0, 1))
    ensures !Conflict(Straight(DanglingBody(), 2), loans, e, inReservation)
  {
    hide AllLoans, Conflict, Needed, WellFormed, Since, Holders, UsedOn;
    var ss, body := DanglingBody(), Straight(DanglingBody(), 2);
    OneRead(ss[0], Place(1, []));
    StraightWellFormed(ss, 2);
    FirstLoans(body, 1, loans);
    ShortRun(body, loans[0]);
    StraightNeeded(ss, 2, 1, 0);
    assert ConflictsOn(body, loans[0], Error(Write, Place(1, []), 0, 0, 1), [Point(0, 1)], 0);
    if Conflict(body, loans, e, inReservation) {
      StraightConflict(ss, 2, loans, e, inReservation);
    }
  }

  // ----- an index -----

  /** r := &mut i; y := a[i]; z := r. */
  function IndexBody(): seq<Statement> {
    var r, i, element, y, z := Place(1, []), Place(2, []), Place(3, [Index(2)]), Place(4, []), Place(5, []);
    [Assign(r, Ref(i, Mut(false))), Assign(y, Use(Copy(element))), Assign(z, Use(Copy(r)))]
  }

  /** i is read as an index while it is mutably borrowed, unreported as is everything else in the body. */
  lemma IndexMissed(loans: seq<Loan>, e: Error, inReservation: bool)
    requires AllLoans(Straight(IndexBody(), 6), loans)
    ensures WellFormed(Straight(IndexBody(), 6)) && |loans| == 1
    ensures RealConflict(Straight(IndexBody(), 6), loans, Error(Access.Read, Place(2, []), 0, 0, 1))
    ensures !Conflict(Straight(IndexBody(), 6), loans, e, inReservation)
  {
    hide AllLoans, Conflict, Needed, WellFormed, Since, Holders, UsedOn;
    var ss, body := IndexBody(), Straight(IndexBody(), 6);
    OneRead(ss[0], Place(2, []));
    OneRead(ss[1], Place(3, [Index(2)]));
    OneRead(ss[2], Place(1, []));
    assert StatementsTouch(ss, 2, 1).Read? && StatementsTouch(ss, 1, 1).Read? && StatementsTouch(ss, 0, 1).Redefined?;
    StraightWellFormed(ss, 6);
    FirstLoans(body, 1, loans);
    ShortRun(body, loans[0]);
    StraightNeeded(ss, 6, 1, 1);
    var places := [ss[1].dest] + RvalueReads(ss[1].rvalue);
    assert places[1].projection[0] == Index(2) && IndexOf(places, Place(2, []));
    assert ConflictsOn(body, loans[0], Error(Access.Read, Place(2, []), 0, 0, 1), [Point(0, 1)], 1);
    if Conflict(body, loans, e, inReservation) {
      StraightConflict(ss, 6, loans, e, inReservation);
    }
  }

  // ----- a copy of the reference -----

  /** r := &p; q := r; p := 5; z := q. */
  function CopyBody(): seq<Statement> {
    var r, p, q, z := Place(1, []), Place(2, []), Place(3, []), Place(4, []);
    [Assign(r, Ref(p, Shared)), Assign(q, Use(Copy(r))), Assign(p, Use(Constant(CInt(5)))), Assign(z, Use(Copy(q)))]
  }

  lemma CopyTouches()
    ensures var ss := CopyBody();
            && StatementsTouch(ss, 2, 3).Read? && StatementsTouch(ss, 2, 1).Untouched?
               && StatementsTouch(ss, 0, 1).Redefined?
            && (forall k :: 0 <= k < 4 ==> Within(ss[k], 5)) && RvalueReads(ss[2].rvalue) == []
            && RvalueReads(ss[3].rvalue) == [Place(3, [])]
  {
    var ss := CopyBody();
    OneRead(ss[0], Place(2, []));
    OneRead(ss[1], Place(1, []));
    NoRead(ss[2]);
    OneRead(ss[3], Place(3, []));
    assert StatementsTouch(ss, 3, 3).Read? && StatementsTouch(ss, 3, 1).Untouched?;
  }

  /** p is written while a copy of the reference still needs it, unreported as is everything else in the body. */
  lemma CopyMissed(loans: seq<Loan>, e: Error, inReservation: bool)
    requires AllLoans(Straight(CopyBody(), 5), loans)
    ensures WellFormed(Straight(CopyBody(), 5)) && |loans| == 1
    ensures RealConflict(Straight(CopyBody(), 5), loans, Error(Write, Place(2, []), 0, 0, 2))
    ensures !Conflict(Straight(CopyBody(), 5), loans, e, inReservation)
  {
    hide AllLoans, Conflict, Needed, WellFormed, Since, Holders, UsedOn, StatementsTouch, Within;
    var ss, body := CopyBody(), Straight(CopyBody(), 5);
    CopyTouches();
    StraightWellFormed(ss, 5);
    FirstLoans(body, 1, loans);
    NextRun(body, loans[0]);
    StraightNeeded(ss, 5, 2, 3);
    assert ConflictsOn(body, loans[0], Error(Write, Place(2, []), 0, 0, 2), [Point(0, 1), Point(0, 2)], 3);
    if Conflict(body, loans, e, inReservation) {
      StraightConflict(ss, 5, loans, e, inReservation);
    }
  }

  // ----- a reference that is returned -----

  /** The returned reference is a reborrow of *x, which is then written. */
  function ReturnBody(): seq<Statement> {
    var pointee := Place(1, [Deref]);
    [Assign(Place(0, []), Ref(pointee, Shared)), Assign(pointee, Use(Constant(CInt(5))))]
  }

  lemma ReturnedMissed(loans: seq<Loan>, e: Error, inReservation: bool)
    requires AllLoans(Straight(ReturnBody(), 2), loans)
    ensures WellFormed(Straight(ReturnBody(), 2)) && |loans| == 1
    ensures RealConflict(Straight(ReturnBody(), 2), loans, Error(Write, Place(1, [Deref]), 0, 0, 1))
    ensures !Conflict(Straight(ReturnBody(), 2), loans, e, inReservation)
  {
    hide AllLoans, Conflict, Needed, WellFormed, Since, Holders, UsedOn;
    var ss, body := ReturnBody(), Straight(ReturnBody(), 2);
    OneRead(ss[0], Place(1, [Deref]));
    NoRead(ss[1]);
    assert StatementsTouch(ss, 1, 0).Untouched?;
    StraightWellFormed(ss, 2);
    FirstLoans(body, 1, loans);
    ShortRun(body, loans[0]);
    StraightNeeded(ss, 2, 1, 0);
    assert P.PlacesConflict(Place(1, [Deref]), Place(1, [Deref]));
    assert ConflictsOn(body, loans[0], Error(Write, Place(1, [Deref]), 0, 0, 1), [Point(0, 1)], 0);
    if Conflict(body, loans, e, inReservation) {
      StraightConflict(ss, 2, loans, e, inReservation);
    }
  }

  // ----- a write through the reference -----

  /** r := &mut y; y := 5; *r := 7; z := *r. */
  function ThroughBody(): seq<Statement> {
    var r, y, z, target := Place(1, []), Place(2, []), Place(3, []), Place(1, [Deref]);
    [Assign(r, Ref(y, Mut(false))), Assign(y, Use(Constant(CInt(5)))), Assign(target, Use(Constant(CInt(7)))),
     Assign(z, Use(Copy(target)))]
  }

  lemma ThroughTouches()
    ensures var ss := ThroughBody();
            && StatementsTouch(ss, 1, 1).Through? && StatementsTouch(ss, 0, 1).Redefined?
            && (forall k :: 0 <= k < 4 ==> Within(ss[k], 4))
            && RvalueReads(ss[2].rvalue) == [] && RvalueReads(ss[3].rvalue) == [Place(1, [Deref])]
  {
    var ss := ThroughBody();
    OneRead(ss[0], Place(2, []));
    NoRead(ss[1]);
    NoRead(ss[2]);
    OneRead(ss[3], Place(1, [Deref]));
    assert StatementsTouch(ss, 2, 1).Through?;
  }

  /** y is written while r is still written through and read: unreported, as is everything else in the body. */
  lemma WriteThroughMissed(loans: seq<Loan>, e: Error, inReservation: bool)
    requires AllLoans(Straight(ThroughBody(), 4), loans)
    ensures WellFormed(Straight(ThroughBody(), 4)) && |loans| == 1
    ensures RealConflict(Straight(ThroughBody(), 4), loans, Error(Write, Place(2, []), 0, 0, 1))
    ensures !Conflict(Straight(ThroughBody(), 4), loans, e, inReservation)
  {
    hide AllLoans, Conflict, Needed, WellFormed, Since, Holders, UsedOn, StatementsTouch, Within;
    var ss, body := ThroughBody(), Straight(ThroughBody(), 4);
    ThroughTouches();
    StraightWellFormed(ss, 4);
    FirstLoans(body, 1, loans);
    ShortRun(body, loans[0]);
    StraightNeeded(ss, 4, 1, 1);
    assert ConflictsOn(body, loans[0], Error(Write, Place(2, []), 0, 0, 1), [Point(0, 1)], 1);
    if Conflict(body, loans, e, inReservation) {
      StraightConflict(ss, 4, loans, e, inReservation);
    }
  }

  // ----- two-phase loans -----

  /** r := &mut p (two-phase); s := &p; t := r; u := s. */
  function ActivationBody(): seq<Statement> {
    var r, p, s, t, u := Place(1, []), Place(2, []), Place(3, []), Place(4, []), Place(5, []);
    [Assign(r, Ref(p, Mut(true))), Assign(s, Ref(p, Shared)), Assign(t, Use(Copy(r))), Assign(u, Use(Copy(s)))]
  }

  lemma ActivationTouches()
    ensures var ss := ActivationBody();
            && StatementsTouch(ss, 2, 3).Read? && StatementsTouch(ss, 0, 1).Redefined?
               && StatementsTouch(ss, 3, 1).Untouched?
            && StatementsTouch(ss, 1, 3).Redefined? && StatementsTouch(ss, 0, 3).Redefined?
            && StatementTouch(ss[1], 1).Untouched? && StatementTouch(ss[2], 1).Read?
            && (forall k :: 0 <= k < 4 ==> Within(ss[k], 6))
            && RvalueReads(ss[2].rvalue) == [Place(1, [])] && RvalueReads(ss[3].rvalue) == [Place(3, [])]
  {
    var ss := ActivationBody();
    OneRead(ss[0], Place(2, []));
    OneRead(ss[1], Place(2, []));
    OneRead(ss[2], Place(1, []));
    OneRead(ss[3], Place(3, []));
    assert StatementsTouch(ss, 3, 3).Read?;
  }

  /** The reservation becomes a mutable borrow while s still needs p: the checker reports nothing. */
  lemma ActivationMissed(loans: seq<Loan>, e: Error, fuel: nat)
    requires AllLoans(Straight(ActivationBody(), 6), loans) && fuel > 0
    ensures WellFormed(Straight(ActivationBody(), 6)) && |loans| == 2
    ensures RealConflict(Straight(ActivationBody(), 6), loans, Error(Write, Place(2, []), 1, 0, 2))
    ensures Finished(Straight(ActivationBody(), 6), loans, fuel)
    ensures !Conflict(Straight(ActivationBody(), 6), loans, e,
                      StillReserved(Straight(ActivationBody(), 6), loans, e, fuel))
  {
    hide AllLoans, Conflict, Needed, WellFormed, Since, Holders, UsedOn, StatementsTouch, StatementTouch, Within,
         Finished, StillReserved, UnreadSince;
    var ss, body := ActivationBody(), Straight(ActivationBody(), 6);
    ActivationTouches();
    StraightWellFormed(ss, 6);
    FirstLoans(body, 2, loans);
    ShortRun(body, loans[1]);
    NextRun(body, loans[0]);
    assert Activates(body, loans[0], Point(0, 2));
    StraightNeeded(ss, 6, 2, 3);
    assert ConflictsOn(body, loans[1], Error(Write, Place(2, []), 1, 0, 2), [Point(0, 2)], 3);
    StraightReserved(ss, 6, loans, e, fuel);
    if Conflict(body, loans, e, UnreadSince(body, loans, e)) {
      StraightConflict(ss, 6, loans, e, UnreadSince(body, loans, e));
      ReservedNext(ss, 6, loans, e);
    }
  }

  /** The point after a two-phase loan is in its reservation. */
  lemma ReservedNext(ss: seq<Statement>, n: nat, loans: seq<Loan>, e: Error)
    requires WellFormed(Straight(ss, n)) && AllLoans(Straight(ss, n), loans)
    requires e.loan < |loans| && TwoPhase(loans[e.loan].kind) && e.block == 0 && e.stmt == loans[e.loan].stmt + 1
    ensures UnreadSince(Straight(ss, n), loans, e)
  {
  }

  /** r := &mut p (two-phase); *r := 5; x := p; z := *r. */
  function EarlyUseBody(): seq<Statement> {
    var r, p, target, x, z := Place(1, []), Place(2, []), Place(1, [Deref]), Place(3, []), Place(4, []);
    [Assign(r, Ref(p, Mut(true))), Assign(target, Use(Constant(CInt(5)))), Assign(x, Use(Copy(p))),
     Assign(z, Use(Copy(target)))]
  }

  lemma EarlyUseTouches()
    ensures var ss := EarlyUseBody();
            && StatementsTouch(ss, 2, 1).Read? && StatementsTouch(ss, 0, 1).Redefined?
               && StatementTouch(ss[1], 1).Through?
            && (forall k :: 0 <= k < 4 ==> Within(ss[k], 5)) && RvalueReads(ss[1].rvalue) == []
            && RvalueReads(ss[2].rvalue) == [Place(2, [])] && RvalueReads(ss[3].rvalue) == [Place(1, [Deref])]
  {
    var ss := EarlyUseBody();
    OneRead(ss[0], Place(2, []));
    NoRead(ss[1]);
    OneRead(ss[2], Place(2, []));
    OneRead(ss[3], Place(1, [Deref]));
    assert StatementsTouch(ss, 3, 1).Read?;
  }

  /** The checker takes a loan that was already written through for reserved: the read of p goes unreported. */
  lemma EarlyUseMissed(loans: seq<Loan>, e: Error, fuel: nat)
    requires AllLoans(Straight(EarlyUseBody(), 5), loans) && fuel > 0
    ensures WellFormed(Straight(EarlyUseBody(), 5)) && |loans| == 1
    ensures RealConflict(Straight(EarlyUseBody(), 5), loans, Error(Access.Read, Place(2, []), 0, 0, 2))
    ensures Finished(Straight(EarlyUseBody(), 5), loans, fuel)
    ensures !Conflict(Straight(EarlyUseBody(), 5), loans, e, StillReserved(Straight(EarlyUseBody(), 5), loans, e, fuel))
  {
    hide AllLoans, Conflict, Needed, WellFormed, Since, Holders, UsedOn, StatementsTouch, StatementTouch, Within,
         Finished, StillReserved, UnreadSince;
    var ss, body := EarlyUseBody(), Straight(EarlyUseBody(), 5);
    EarlyUseTouches();
    StraightWellFormed(ss, 5);
    FirstLoans(body, 1, loans);
    NextRun(body, loans[0]);
    StraightNeeded(ss, 5, 2, 1);
    assert ConflictsOn(body, loans[0], Error(Access.Read, Place(2, []), 0, 0, 2), [Point(0, 1), Point(0, 2)], 1);
    StraightReserved(ss, 5, loans, e, fuel);
    if Conflict(body, loans, e, UnreadSince(body, loans, e)) {
      StraightConflict(ss, 5, loans, e, UnreadSince(body, loans, e));
      if e.stmt == 2 {
        EarlyUseReserved(loans, e);
      }
    }
  }

  lemma EarlyUseReserved(loans: seq<Loan>, e: Error)
    requires WellFormed(Straight(EarlyUseBody(), 5)) && AllLoans(Straight(EarlyUseBody(), 5), loans)
    requires |loans| == 1 && loans[0] == LoanAt(Straight(EarlyUseBody(), 5), 0, 0)
    requires e.loan == 0 && e.block == 0 && e.stmt == 2
    ensures UnreadSince(Straight(EarlyUseBody(), 5), loans, e)
  {
    hide AllLoans;
    var ss, body := EarlyUseBody(), Straight(EarlyUseBody(), 5);
    NoRead(ss[1]);
    LoanCfgValid(body, loans[0]);
    assert !StatementReads(ss[1], 1);
    assert R.Clear(LoanCfg(body, loans[0]), 0, 1, 2);
  }

  // ----- the block's own terminator -----

  /** r := &mut y; y := 5; then a branch on r, and a return. */
  function LateReadBody(): Body {
    var r, y := Place(1, []), Place(2, []);
    Body([BasicBlock([Assign(r, Ref(y, Mut(false))), Assign(y, Use(Constant(CInt(5))))],
                     SwitchInt(Copy(r), false, [], 1)),
          BasicBlock([], Return)],
         [TUnit, TOther, TInt])
  }

  /** The write to y while r is still needed by the branch goes unreported, and so does everything else. */
  lemma LateReadMissed(loans: seq<Loan>, e: Error, inReservation: bool)
    requires AllLoans(LateReadBody(), loans)
    ensures WellFormed(LateReadBody()) && |loans| == 1
    ensures RealConflict(LateReadBody(), loans, Error(Write, Place(2, []), 0, 0, 1))
    ensures !Conflict(LateReadBody(), loans, e, inReservation)
  {
    hide AllLoans, Needed, WellFormed, IsLoan, L.UsedAhead, Since, Holders, UsedOn;
    var body := LateReadBody();
    LateReadWellFormed();
    FirstLoans(body, 1, loans);
    LateReadNeeded();
    ShortRun(body, loans[0]);
    assert ConflictsOn(body, loans[0], Error(Write, Place(2, []), 0, 0, 1), [Point(0, 1)], 1);
    if Conflict(body, loans, e, inReservation) {
      LateReadUnused(e.block, e.stmt);
    }
  }

  lemma LocalsBelow(places: seq<Place>, n: nat)
    requires forall k :: 0 <= k < |places| ==> places[k].local as nat < n
    ensures forall l :: l in LocalsOf(places) ==> l < n
  {
  }

  lemma LateReadWellFormed()
    ensures WellFormed(LateReadBody())
  {
    hide LocalsOf;
    var body := LateReadBody();
    var bb := body.blocks[0];
    forall k | 0 <= k < |bb.statements|
      ensures forall l :: l in LocalsOf(RvalueReads(bb.statements[k].rvalue)) ==> l < 3
    {
      LocalsBelow(RvalueReads(bb.statements[k].rvalue), 3);
    }
    assert Successors(bb.terminator) == [1] && Successors(body.blocks[1].terminator) == [];
    LocalsBelow(TerminatorReads(bb.terminator), 3);
    LocalsBelow(TerminatorReads(body.blocks[1].terminator), 3);
    assert BlockLocalsExist(bb, 3) && BlockLocalsExist(body.blocks[1], 3);
  }

  lemma LateReadNeeded()
    ensures Needed(LateReadBody(), 0, 1, 1)
  {
    var body := LateReadBody();
    var bb := body.blocks[0];
    assert TerminatorReads(bb.terminator)[0].local == 1;
    assert StatementTouch(bb.statements[1], 1).Untouched? && StatementsTouch(bb.statements, 2, 1).Untouched?;
    assert StatementsTouch(bb.statements, 1, 1).Untouched?;
    assert From(body, [0], 0) && PathTouch(body, [0], 1, 1).Read?;
  }

  lemma LateReadUnused(b: nat, i: nat)
    requires b < 2 && i <= |LateReadBody().blocks[b].statements|
    ensures !L.UsedAhead(LateReadBody(), b, i, 1)
  {
    hide L.Untouched, L.ReadInLaterBlock;
    var ss := LateReadBody().blocks[b].statements;
    assert forall j :: 0 <= j < |ss| ==> !StatementReads(ss[j], 1);
    LateReadNoLater(b);
  }

  lemma LateReadNoLater(b: nat)
    requires b < 2
    ensures !L.ReadInLaterBlock(LateReadBody(), b, 1)
  {
    hide Successors, L.Exposed, L.Defines;
    LateReadBlocks();
  }

  lemma LateReadBlocks()
    ensures var blocks := LateReadBody().blocks;
            && Successors(blocks[0].terminator) == [1] && Successors(blocks[1].terminator) == []
            && !L.Exposed(blocks[1], 1)
  {
  }
}
