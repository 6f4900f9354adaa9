/**
Which uses of a place its loans tolerate, told by what the use does and not by the checks
(crates/glyim-borrowck/src/lib.rs, conflicts_with_active and the checks of reads and writes).
*/
module BorrowTable {
  import opened Mir
  import opened Visitor
  import opened VisitorLaws
  import opened Borrowck
  import opened Wrappers
  import L = Liveness
  import P = Places

  /** A use either leaves the place as it is and lets others use it, or needs it to itself. */
  datatype Usage = Sharing | Alone


  /** Reads and shared borrows share; writes and all other borrows do not. */
  function UsageOf(access: Access): Usage {
    if access == Access.Read || access == Borrow(Shared) then Sharing else Alone
  }

  /** Nobody may use a borrowed place alone; sharing is for shared loans and for reservations. */
  predicate Tolerates(loan: BorrowKind, reserved: bool, use: Usage) {
    use == Sharing && (loan == Shared || reserved)
  }

  lemma OffendsTable(loan: BorrowKind, access: Access, reserved: bool)
    requires reserved ==> TwoPhase(loan)
    ensures Offends(loan, access, reserved) <==> !Tolerates(loan, reserved, UsageOf(access))
  {
  }

  // ----- what no errors means -----

  /** The checker takes loan k for reserved at point (b, i). */
  ghost predicate ReservedAt(body: Body, loans: seq<Loan>, k: nat, b: nat, i: nat, fuel: nat)
    requires TargetsExist(body) && forall j :: 0 <= j < |loans| ==> IsLoan(body, loans[j])
  {
    StillReserved(body, loans, Error(Access.Read, Place(0, []), k, b, i), fuel)
  }

  ghost predicate SharedOnly(loan: Loan, reserved: bool) {
    loan.kind == Shared || (loan.kind == Mut(true) && reserved)
  }

  /** A borrow is shared, and of a place that is shared or reserved; so is a place read; one written is not borrowed. */
  ghost predicate StatementAllowed(s: Statement, loan: Loan, reserved: bool) {
    s.Assign? ==>
      if s.rvalue.Ref? then
        P.PlacesConflict(s.rvalue.borrowed, loan.place) ==> s.rvalue.kind == Shared && SharedOnly(loan, reserved)
      else
        && !P.PlacesConflict(s.dest, loan.place)
        && forall p :: Evaluates(s.rvalue, p) && P.PlacesConflict(p, loan.place) ==> SharedOnly(loan, reserved)
  }

  ghost predicate TerminatorAllowed(t: Terminator, loan: Loan, reserved: bool) {
    && (t.Call? ==> !P.PlacesConflict(t.destination, loan.place))
    && (t.Drop? ==> !P.PlacesConflict(t.place, loan.place))
    && forall p :: TerminatorEvaluates(t, p) && P.PlacesConflict(p, loan.place) ==> SharedOnly(loan, reserved)
  }

  ghost predicate AllowedAt(body: Body, loan: Loan, b: nat, i: nat, reserved: bool)
    requires b < |body.blocks| && i <= |body.blocks[b].statements|
  {
    var bb := body.blocks[b];
    if i < |bb.statements| then StatementAllowed(bb.statements[i], loan, reserved)
    else TerminatorAllowed(bb.terminator, loan, reserved)
  }

  /** Every loan that is live at a point tolerates what happens there. */
  ghost predicate AllAllowed(body: Body, loans: seq<Loan>, fuel: nat)
    requires TargetsExist(body) && forall j :: 0 <= j < |loans| ==> IsLoan(body, loans[j])
  {
    forall k: nat, b: nat, i: nat ::
      k < |loans| && b < |body.blocks| && i <= |body.blocks[b].statements| && L.UsedAhead(body, b, i, loans[k].dest) ==>
        AllowedAt(body, loans[k], b, i, ReservedAt(body, loans, k, b, i, fuel))
  }

  lemma StatementAllowedIs(s: Statement, loan: Loan, reserved: bool)
    requires reserved ==> TwoPhase(loan.kind)
    ensures StatementAllowed(s, loan, reserved) <==>
            forall access, place :: AtStatement(s, access, place) && P.PlacesConflict(place, loan.place) ==>
                                      !Offends(loan.kind, access, reserved)
  {
    hide P.PlacesConflict, RvalueReads, Evaluates, Offends;
    forall access
      ensures Offends(loan.kind, access, reserved) <==> !Tolerates(loan.kind, reserved, UsageOf(access))
    {
      OffendsTable(loan.kind, access, reserved);
    }
    if s.Assign? {
      forall p
        ensures p in RvalueReads(s.rvalue) <==> Evaluates(s.rvalue, p)
      {
        RvalueReadsAre(s.rvalue, p);
      }
      if s.rvalue.Ref? {
        assert AtStatement(s, Borrow(s.rvalue.kind), s.rvalue.borrowed);
      } else {
        assert AtStatement(s, Write, s.dest);
        assert forall p :: Evaluates(s.rvalue, p) ==> AtStatement(s, Access.Read, p);
      }
    }
  }

  lemma TerminatorAllowedIs(t: Terminator, loan: Loan, reserved: bool)
    requires reserved ==> TwoPhase(loan.kind)
    ensures TerminatorAllowed(t, loan, reserved) <==>
            forall access, place :: AtTerminator(t, access, place) && P.PlacesConflict(place, loan.place) ==>
                                      !Offends(loan.kind, access, reserved)
  {
    hide P.PlacesConflict, TerminatorReads, TerminatorEvaluates, Offends;
    forall access
      ensures Offends(loan.kind, access, reserved) <==> !Tolerates(loan.kind, reserved, UsageOf(access))
    {
      OffendsTable(loan.kind, access, reserved);
    }
    forall p
      ensures p in TerminatorReads(t) <==> TerminatorEvaluates(t, p)
    {
      TerminatorReadsAre(t, p);
    }
    assert forall p :: TerminatorEvaluates(t, p) ==> AtTerminator(t, Access.Read, p);
    assert t.Call? ==> AtTerminator(t, Write, t.destination);
    assert t.Drop? ==> AtTerminator(t, Write, t.place);
  }

  /** At one point one loan conflicts with nothing exactly when it tolerates what happens there. */
  lemma PointAllowed(body: Body, loans: seq<Loan>, k: nat, b: nat, i: nat, reserved: bool)
    requires k < |loans| && b < |body.blocks| && i <= |body.blocks[b].statements|
    requires L.UsedAhead(body, b, i, loans[k].dest) && (reserved ==> TwoPhase(loans[k].kind))
    ensures AllowedAt(body, loans[k], b, i, reserved) <==>
            forall access, place :: !Conflict(body, loans, Error(access, place, k, b, i), reserved)
  {
    hide P.PlacesConflict, Offends, L.UsedAhead, AtStatement, AtTerminator, StatementAllowed, TerminatorAllowed;
    var bb, loan := body.blocks[b], loans[k];
    if i < |bb.statements| {
      StatementAllowedIs(bb.statements[i], loan, reserved);
    } else {
      TerminatorAllowedIs(bb.terminator, loan, reserved);
    }
    forall access, place
      ensures Conflict(body, loans, Error(access, place, k, b, i), reserved) <==>
              && (if i < |bb.statements| then AtStatement(bb.statements[i], access, place)
                  else AtTerminator(bb.terminator, access, place))
              && P.PlacesConflict(place, loan.place) && Offends(loan.kind, access, reserved)
    {
    }
  }

  /**
  The checker reports nothing exactly when at every point and for every loan live there: a borrow of an
  overlapping place is shared, and so is the loan unless it is two-phase and still reserved; the same of
  places read; and no overlapping place is written.
  */
  lemma SilentExactly(body: Body, loans: seq<Loan>, fuel: nat)
    requires TargetsExist(body) && AllLoans(body, loans)
    ensures (forall e :: !Conflict(body, loans, e, StillReserved(body, loans, e, fuel))) <==>
            AllAllowed(body, loans, fuel)
  {
    hide Conflict, AllowedAt, L.UsedAhead, AnalysisOf, TargetsExist, IsLoan;
    if forall e :: !Conflict(body, loans, e, StillReserved(body, loans, e, fuel)) {
      forall k: nat, b: nat, i: nat
        | k < |loans| && b < |body.blocks| && i <= |body.blocks[b].statements|
          && L.UsedAhead(body, b, i, loans[k].dest)
        ensures AllowedAt(body, loans[k], b, i, ReservedAt(body, loans, k, b, i, fuel))
      {
        PointAllowed(body, loans, k, b, i, ReservedAt(body, loans, k, b, i, fuel));
        forall access, place
          ensures !Conflict(body, loans, Error(access, place, k, b, i), ReservedAt(body, loans, k, b, i, fuel))
        {
          var e := Error(access, place, k, b, i);
          assert !Conflict(body, loans, e, StillReserved(body, loans, e, fuel));
        }
      }
    }
    if AllAllowed(body, loans, fuel) {
      forall e
        ensures !Conflict(body, loans, e, StillReserved(body, loans, e, fuel))
      {
        var reserved := StillReserved(body, loans, e, fuel);
        if Conflict(body, loans, e, reserved) {
          ConflictPoint(body, loans, e, reserved);
          ConflictLive(body, loans, e, reserved);
          assert reserved == ReservedAt(body, loans, e.loan, e.block, e.stmt, fuel);
          assert e == Error(e.access, e.place, e.loan, e.block, e.stmt);
          PointAllowed(body, loans, e.loan, e.block, e.stmt, reserved);
        }
      }
    }
  }

  lemma ConflictLive(body: Body, loans: seq<Loan>, e: Error, reserved: bool)
    requires Conflict(body, loans, e, reserved)
    ensures e.block < |body.blocks| && e.loan < |loans| && L.UsedAhead(body, e.block, e.stmt, loans[e.loan].dest)
  {
  }

  // ----- two live borrows of one place -----

  /**
  In particular, of an accepted body: when a place is borrowed while a loan of an overlapping place is
  live, neither borrow is exclusive, but for a reservation that is joined by shared borrows.
  */
  lemma NoTwoExclusive(body: Body, loans: seq<Loan>, fuel: nat, k: nat, j: nat)
    requires TargetsExist(body) && AllLoans(body, loans) && k < |loans| && j < |loans|
    requires forall e :: !Conflict(body, loans, e, StillReserved(body, loans, e, fuel))
    requires L.UsedAhead(body, loans[j].block, loans[j].stmt, loans[k].dest)
    requires P.PlacesConflict(loans[j].place, loans[k].place)
    ensures loans[j].kind == Shared
    ensures loans[k].kind == Shared
            || (loans[k].kind == Mut(true) && ReservedAt(body, loans, k, loans[j].block, loans[j].stmt, fuel))
  {
    hide Conflict, L.UsedAhead, AnalysisOf, TargetsExist, P.PlacesConflict, ReservedAt, StillReserved;
    SilentExactly(body, loans, fuel);
    assert IsLoan(body, loans[j]);
    var b, i := loans[j].block, loans[j].stmt;
    assert AllowedAt(body, loans[k], b, i, ReservedAt(body, loans, k, b, i, fuel));
  }
}
