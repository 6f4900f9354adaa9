/**
The borrow checker: loans, which of them are active at a point, and the accesses that conflict with
one (crates/glyim-borrowck/src/lib.rs).
*/
module Borrowck {
  import opened Mir
  import opened Visitor
  import opened Wrappers
  import opened Int64
  import D = Dataflow
  import L = Liveness
  import P = Places
  import R = Reservation
  import RC = ReservationCorrectness

  // ----- loans -----

  datatype Loan = Loan(dest: Local, place: Place, kind: BorrowKind, block: nat, stmt: nat)

  predicate IsBorrow(s: Statement) {
    s.Assign? && s.rvalue.Ref?
  }

  function LoanAt(body: Body, b: nat, i: nat): Loan
    requires b < |body.blocks| && i < |body.blocks[b].statements| && IsBorrow(body.blocks[b].statements[i])
  {
    var s := body.blocks[b].statements[i];
    Loan(s.dest.local, s.rvalue.borrowed, s.rvalue.kind, b, i)
  }

  predicate Earlier(b: nat, i: nat, b': nat, i': nat) {
    b < b' || (b == b' && i < i')
  }

  /** The borrows before point (b, i), each once, in program order. */
  ghost predicate LoansBefore(body: Body, loans: seq<Loan>, b: nat, i: nat) {
    && (forall k :: 0 <= k < |loans| ==> IsLoan(body, loans[k]) && Earlier(loans[k].block, loans[k].stmt, b, i))
    && (forall j, k :: 0 <= j < k < |loans| ==> Earlier(loans[j].block, loans[j].stmt, loans[k].block, loans[k].stmt))
    && (forall x: nat, y: nat ::
          (x < |body.blocks| && y < |body.blocks[x].statements| && Earlier(x, y, b, i)
           && IsBorrow(body.blocks[x].statements[y]))
          ==> LoanAt(body, x, y) in loans)
  }

  predicate IsLoan(body: Body, loan: Loan) {
    && loan.block < |body.blocks| && loan.stmt < |body.blocks[loan.block].statements|
    && IsBorrow(body.blocks[loan.block].statements[loan.stmt]) && loan == LoanAt(body, loan.block, loan.stmt)
  }

  ghost predicate AllLoans(body: Body, loans: seq<Loan>) {
    LoansBefore(body, loans, |body.blocks|, 0)
  }

  method CollectLoans(body: Body) returns (loans: seq<Loan>)
    ensures AllLoans(body, loans)
  {
    loans := [];
    for b := 0 to |body.blocks|
      invariant LoansBefore(body, loans, b, 0)
    {
      var ss := body.blocks[b].statements;
      for i := 0 to |ss|
        invariant LoansBefore(body, loans, b, i)
      {
        if IsBorrow(ss[i]) {
          loans := loans + [LoanAt(body, b, i)];
        }
      }
    }
  }

  // ----- what conflicts -----

  datatype Access = Borrow(kind: BorrowKind) | Read | Write

  /** An access to a place at a statement, or at the terminator when stmt is the number of statements. */
  datatype Error = Error(access: Access, place: Place, loan: nat, block: nat, stmt: nat)

  function ConflictsWithActive(active: BorrowKind, fresh': BorrowKind, inReservation: bool): bool {
    if active.Shared? && fresh'.Shared? then false
    else if active.Mut? && fresh'.Shared? && inReservation then false
    else true
  }

  function Offends(loan: BorrowKind, access: Access, inReservation: bool): bool {
    match access
    case Borrow(kind) => ConflictsWithActive(loan, kind, inReservation)
    case Read => !loan.Shared? && !inReservation
    case Write => true
  }

  predicate AtStatement(s: Statement, access: Access, place: Place) {
    && s.Assign?
    && if s.rvalue.Ref? then access == Borrow(s.rvalue.kind) && place == s.rvalue.borrowed
       else (access == Read && place in RvalueReads(s.rvalue)) || (access == Write && place == s.dest)
  }

  function TerminatorWrites(t: Terminator): seq<Place> {
    match t
    case Call(_, _, destination, _, _) => [destination]
    case Drop(place, _, _) => [place]
    case _ => []
  }

  predicate AtTerminator(t: Terminator, access: Access, place: Place) {
    (access == Read && place in TerminatorReads(t)) || (access == Write && place in TerminatorWrites(t))
  }

  /** The access happens at this point of the body. */
  predicate Happens(body: Body, e: Error) {
    && e.block < |body.blocks| && e.stmt <= |body.blocks[e.block].statements|
    && var bb := body.blocks[e.block];
       if e.stmt < |bb.statements| then AtStatement(bb.statements[e.stmt], e.access, e.place)
       else AtTerminator(bb.terminator, e.access, e.place)
  }

  /** A conflict with a loan whose reference is read ahead of the point. */
  ghost predicate Conflict(body: Body, loans: seq<Loan>, e: Error, inReservation: bool) {
    && Happens(body, e) && e.loan < |loans|
    && P.PlacesConflict(e.place, loans[e.loan].place)
    && L.UsedAhead(body, e.block, e.stmt, loans[e.loan].dest)
    && Offends(loans[e.loan].kind, e.access, inReservation)
  }

  predicate TwoPhase(kind: BorrowKind) {
    kind.Mut? && kind.allowTwoPhase
  }

  // ----- the reservation results, one for each two-phase loan -----

  function LoanCfg(body: Body, loan: Loan): R.Cfg {
    R.CfgOf(body, loan.block, loan.stmt, loan.dest)
  }

  lemma LoanCfgValid(body: Body, loan: Loan)
    requires TargetsExist(body) && IsLoan(body, loan)
    ensures R.Valid(LoanCfg(body, loan)) && |LoanCfg(body, loan).readsRef| == |body.blocks|
  {
  }

  type Reservations = seq<Option<seq<set<nat>>>>

  /** What `fuel` turns of a loan's analysis leave. */
  ghost function AnalysisOf(body: Body, loan: Loan, fuel: nat): R.State
    requires TargetsExist(body) && IsLoan(body, loan)
  {
    LoanCfgValid(body, loan);
    R.Iterate(LoanCfg(body, loan), R.Start(LoanCfg(body, loan)), fuel)
  }

  ghost predicate CacheIs(body: Body, loans: seq<Loan>, cache: Reservations, fuel: nat)
    requires TargetsExist(body) && forall k :: 0 <= k < |loans| ==> IsLoan(body, loans[k])
  {
    && |cache| <= |loans|
    && forall k :: 0 <= k < |cache| ==>
                     cache[k] == if TwoPhase(loans[k].kind) then Some(AnalysisOf(body, loans[k], fuel).bits) else None
  }

  /** False for a point outside the tables. */
  predicate InReservation(cache: Reservations, loan: nat, b: nat, i: nat) {
    loan < |cache| && cache[loan].Some? && b < |cache[loan].value| && i in cache[loan].value[b]
  }

  ghost predicate Finished(body: Body, loans: seq<Loan>, fuel: nat)
    requires TargetsExist(body) && forall k :: 0 <= k < |loans| ==> IsLoan(body, loans[k])
  {
    forall k :: 0 <= k < |loans| && TwoPhase(loans[k].kind) ==> AnalysisOf(body, loans[k], fuel).queue == []
  }

  method Reserve(body: Body, loans: seq<Loan>, fuel: nat) returns (r: Option<Reservations>)
    requires TargetsExist(body) && forall k :: 0 <= k < |loans| ==> IsLoan(body, loans[k])
    ensures r.Some? <==> Finished(body, loans, fuel)
    ensures r.Some? ==> |r.value| == |loans| && CacheIs(body, loans, r.value, fuel)
  {
    hide R.Iterate, R.Start, R.Valid, R.CfgOf, R.Shaped, SuccessorLists;
    var cache := [];
    for k := 0 to |loans|
      invariant |cache| == k && CacheIs(body, loans, cache, fuel)
      invariant forall j :: 0 <= j < k && TwoPhase(loans[j].kind) ==> AnalysisOf(body, loans[j], fuel).queue == []
    {
      var loan := loans[k];
      if TwoPhase(loan.kind) {
        LoanCfgValid(body, loan);
        var successors, predecessors := BuildEdges(body);
        var a := Analyse(body, loan, predecessors, fuel);
        if a.None? {
          return None;
        }
        cache := cache + [a];
      } else {
        cache := cache + [None];
      }
    }
    r := Some(cache);
  }

  method Analyse(body: Body, loan: Loan, predecessors: seq<seq<nat>>, fuel: nat) returns (r: Option<seq<set<nat>>>)
    requires TargetsExist(body) && IsLoan(body, loan) && |predecessors| == |body.blocks|
    requires forall a, b :: 0 <= a < |body.blocks| && 0 <= b < |body.blocks| ==>
                              (a in predecessors[b] <==> b in SuccessorLists(body)[a])
    requires forall b, k :: 0 <= b < |predecessors| && 0 <= k < |predecessors[b]| ==> predecessors[b][k] < |body.blocks|
    ensures var s := AnalysisOf(body, loan, fuel); r == if s.queue == [] then Some(s.bits) else None
  {
    hide R.Iterate, R.Start;
    LoanCfgValid(body, loan);
    r := R.Compute(LoanCfg(body, loan), predecessors, fuel);
  }

  // ----- the checks -----

  predicate Found(loans: seq<Loan>, active: seq<nat>, cache: Reservations, b: nat, i: nat, access: Access,
                  place: Place, e: Error) {
    && e.access == access && e.place == place && e.block == b && e.stmt == i
    && e.loan in active && e.loan < |loans|
    && P.PlacesConflict(place, loans[e.loan].place)
    && Offends(loans[e.loan].kind, access, InReservation(cache, e.loan, b, i))
  }

  /** One access against every active loan. */
  method CheckAccess(loans: seq<Loan>, active: seq<nat>, cache: Reservations, b: nat, i: nat, access: Access,
                     place: Place, before: seq<Error>)
    returns (errors: seq<Error>)
    requires forall k :: 0 <= k < |active| ==> active[k] < |loans|
    ensures forall e :: e in errors <==> e in before || Found(loans, active, cache, b, i, access, place, e)
  {
    hide P.PlacesConflict, Offends, InReservation;
    errors := before;
    for k := 0 to |active|
      invariant forall e :: e in errors <==> e in before || Found(loans, active[..k], cache, b, i, access, place, e)
    {
      var loan := loans[active[k]];
      assert active[..k + 1] == active[..k] + [active[k]];
      if P.PlacesConflict(place, loan.place) && Offends(loan.kind, access, InReservation(cache, active[k], b, i)) {
        errors := errors + [Error(access, place, active[k], b, i)];
      }
    }
    assert active[..|active|] == active;
  }

  ghost predicate FoundAny(loans: seq<Loan>, active: seq<nat>, cache: Reservations, b: nat, i: nat, access: Access,
                           places: seq<Place>, e: Error)
  {
    e.place in places && Found(loans, active, cache, b, i, access, e.place, e)
  }

  method CheckAccesses(loans: seq<Loan>, active: seq<nat>, cache: Reservations, b: nat, i: nat, access: Access,
                       places: seq<Place>, before: seq<Error>)
    returns (errors: seq<Error>)
    requires forall k :: 0 <= k < |active| ==> active[k] < |loans|
    ensures forall e :: e in errors <==> e in before || FoundAny(loans, active, cache, b, i, access, places, e)
  {
    hide P.PlacesConflict, Offends, InReservation;
    errors := before;
    for k := 0 to |places|
      invariant forall e :: e in errors <==> e in before || FoundAny(loans, active, cache, b, i, access, places[..k], e)
    {
      assert places[..k + 1] == places[..k] + [places[k]];
      errors := CheckAccess(loans, active, cache, b, i, access, places[k], errors);
    }
    assert places[..|places|] == places;
  }

  method CheckStatement(loans: seq<Loan>, active: seq<nat>, cache: Reservations, s: Statement, b: nat, i: nat,
                        before: seq<Error>)
    returns (errors: seq<Error>)
    requires forall k :: 0 <= k < |active| ==> active[k] < |loans|
    ensures forall e :: e in errors <==>
              e in before
                || (AtStatement(s, e.access, e.place) && Found(loans, active, cache, b, i, e.access, e.place, e))
  {
    hide P.PlacesConflict, Offends, InReservation, RvalueReads;
    errors := before;
    if s.Assign? {
      if s.rvalue.Ref? {
        errors := CheckAccess(loans, active, cache, b, i, Borrow(s.rvalue.kind), s.rvalue.borrowed, errors);
      } else {
        errors := CheckAccesses(loans, active, cache, b, i, Read, RvalueReads(s.rvalue), errors);
        errors := CheckAccess(loans, active, cache, b, i, Write, s.dest, errors);
      }
    }
  }

  method CheckTerminator(loans: seq<Loan>, active: seq<nat>, cache: Reservations, t: Terminator, b: nat, i: nat,
                         before: seq<Error>)
    returns (errors: seq<Error>)
    requires forall k :: 0 <= k < |active| ==> active[k] < |loans|
    ensures forall e :: e in errors <==>
              e in before
                || (AtTerminator(t, e.access, e.place) && Found(loans, active, cache, b, i, e.access, e.place, e))
  {
    hide P.PlacesConflict, Offends, InReservation, TerminatorReads, TerminatorWrites;
    errors := CheckAccesses(loans, active, cache, b, i, Read, TerminatorReads(t), before);
    errors := CheckAccesses(loans, active, cache, b, i, Write, TerminatorWrites(t), errors);
  }

  // ----- active loans -----

  method IndexByDest(loans: seq<Loan>, locals: nat) returns (byDest: seq<seq<nat>>)
    requires forall k :: 0 <= k < |loans| ==> loans[k].dest as nat < locals
    ensures |byDest| == locals
    ensures forall l: nat, k: nat :: l < locals ==> (k in byDest[l] <==> k < |loans| && loans[k].dest as nat == l)
  {
    byDest := seq(locals, _ => []);
    for i := 0 to |loans|
      invariant |byDest| == locals
      invariant forall l: nat, k: nat :: l < locals ==> (k in byDest[l] <==> k < i && loans[k].dest as nat == l)
    {
      var l := loans[i].dest as nat;
      byDest := byDest[l := byDest[l] + [i]];
    }
    forall l: nat, k: nat | l < locals
      ensures k in byDest[l] <==> k < |loans| && loans[k].dest as nat == l
    {
    }
  }

  /** The loans whose reference is live, by local. */
  method ActiveLoans(loans: seq<Loan>, byDest: seq<seq<nat>>, live: set<nat>) returns (active: seq<nat>)
    requires forall k :: 0 <= k < |loans| ==> loans[k].dest as nat < |byDest|
    requires forall l: nat, k: nat :: l < |byDest| ==> (k in byDest[l] <==> k < |loans| && loans[k].dest as nat == l)
    ensures forall k: nat :: k in active <==> k < |loans| && loans[k].dest as nat in live
    ensures forall k :: 0 <= k < |active| ==> active[k] < |loans|
  {
    active := [];
    for l := 0 to |byDest|
      invariant forall k: nat :: k in active <==>
                k < |loans| && loans[k].dest as nat < l && loans[k].dest as nat in live
    {
      if l in live {
        active := active + byDest[l];
      }
    }
    forall k | 0 <= k < |active|
      ensures active[k] < |loans|
    {
      assert active[k] in active;
    }
  }

  // ----- the whole check -----

  /** Every local named by the body is declared; the checker indexes its loan table by local. */
  ghost predicate LocalsExist(body: Body) {
    forall b :: 0 <= b < |body.blocks| ==> BlockLocalsExist(body.blocks[b], |body.locals|)
  }

  ghost predicate BlockLocalsExist(bb: BasicBlock, n: nat) {
    && (forall k :: 0 <= k < |bb.statements| && bb.statements[k].Assign? ==>
          && bb.statements[k].dest.local as nat < n
          && forall l :: l in LocalsOf(RvalueReads(bb.statements[k].rvalue)) ==> l < n)
    && (forall l :: l in LocalsOf(TerminatorReads(bb.terminator)) || l in L.CallDefs(bb.terminator) ==> l < n)
  }

  /** Found among the loans live at a point means a conflict at that point. */
  lemma FoundIsConflict(body: Body, loans: seq<Loan>, active: seq<nat>, cache: Reservations, live: set<nat>, e: Error)
    requires e.block < |body.blocks| && e.stmt <= |body.blocks[e.block].statements|
    requires forall k: nat :: k in active <==> k < |loans| && loans[k].dest as nat in live
    requires forall v :: v in live <==> L.UsedAhead(body, e.block, e.stmt, v)
    ensures Happens(body, e) && Found(loans, active, cache, e.block, e.stmt, e.access, e.place, e) <==>
            Conflict(body, loans, e, InReservation(cache, e.loan, e.block, e.stmt))
  {
    hide L.UsedAhead, P.PlacesConflict, Offends, InReservation, Happens;
  }

  /** The conflicts before point (b, i). */
  ghost predicate Reported(body: Body, loans: seq<Loan>, cache: Reservations, b: nat, i: nat, e: Error) {
    Earlier(e.block, e.stmt, b, i) && Conflict(body, loans, e, InReservation(cache, e.loan, e.block, e.stmt))
  }

  method CheckBlock(body: Body, loans: seq<Loan>, byDest: seq<seq<nat>>, cache: Reservations, b: nat, liveOut: set<nat>,
                    before: seq<Error>)
    returns (errors: seq<Error>)
    requires TargetsExist(body) && b < |body.blocks|
    requires D.Valid(L.LivenessProblem(body)) && forall v :: v in liveOut <==> D.Arrives(L.LivenessProblem(body), b, v)
    requires forall k :: 0 <= k < |loans| ==> loans[k].dest as nat < |byDest|
    requires forall l: nat, k: nat :: l < |byDest| ==> (k in byDest[l] <==> k < |loans| && loans[k].dest as nat == l)
    requires forall e :: e in before <==> Reported(body, loans, cache, b, 0, e)
    ensures forall e :: e in errors <==> Reported(body, loans, cache, b + 1, 0, e)
  {
    hide L.UsedAhead, L.LivenessProblem, L.Scan, D.Arrives, Conflict, Found, InReservation, AtStatement, AtTerminator;
    var ss := body.blocks[b].statements;
    var liveness := L.ComputeStmtLiveness(ss, liveOut);
    errors := before;
    for i := 0 to |ss|
      invariant forall e :: e in errors <==> Reported(body, loans, cache, b, i, e)
    {
      var active := ActiveLoans(loans, byDest, liveness[i]);
      ghost var was := errors;
      errors := CheckStatement(loans, active, cache, ss[i], b, i, errors);
      PointDone(body, loans, active, cache, liveness[i], liveOut, b, i, was, errors);
    }
    var active := ActiveLoans(loans, byDest, liveness[|ss|]);
    ghost var was := errors;
    errors := CheckTerminator(loans, active, cache, body.blocks[b].terminator, b, |ss|, errors);
    PointDone(body, loans, active, cache, liveness[|ss|], liveOut, b, |ss|, was, errors);
    var nextBlock, pastEnd := b + 1, |ss| + 1;
    forall e
      ensures Reported(body, loans, cache, nextBlock, 0, e) <==> Reported(body, loans, cache, b, pastEnd, e)
    {
      if Conflict(body, loans, e, InReservation(cache, e.loan, e.block, e.stmt)) {
        ConflictPoint(body, loans, e, InReservation(cache, e.loan, e.block, e.stmt));
      }
    }
  }

  lemma ConflictPoint(body: Body, loans: seq<Loan>, e: Error, inReservation: bool)
    requires Conflict(body, loans, e, inReservation)
    ensures e.block < |body.blocks| && e.stmt <= |body.blocks[e.block].statements| && e.loan < |loans|
  {
  }

  /** What one point adds to the errors. */
  lemma PointDone(body: Body, loans: seq<Loan>, active: seq<nat>, cache: Reservations, live: set<nat>,
                  liveOut: set<nat>, b: nat, i: nat, was: seq<Error>, errors: seq<Error>)
    requires b < |body.blocks| && i <= |body.blocks[b].statements|
    requires D.Valid(L.LivenessProblem(body)) && forall v :: v in liveOut <==> D.Arrives(L.LivenessProblem(body), b, v)
    requires live == L.Scan(body.blocks[b].statements[i..], liveOut)
    requires forall k: nat :: k in active <==> k < |loans| && loans[k].dest as nat in live
    requires forall e :: e in was <==> Reported(body, loans, cache, b, i, e)
    requires var bb := body.blocks[b];
             forall e :: e in errors <==>
               e in was ||
               (&& (if i < |bb.statements| then AtStatement(bb.statements[i], e.access, e.place)
                    else AtTerminator(bb.terminator, e.access, e.place))
                && Found(loans, active, cache, b, i, e.access, e.place, e))
    ensures forall e :: e in errors <==> Reported(body, loans, cache, b, i + 1, e)
  {
    hide L.UsedAhead, L.LivenessProblem, L.Scan, D.Arrives, Conflict, Found, InReservation, AtStatement, AtTerminator;
    forall v: nat
      ensures v in live <==> L.UsedAhead(body, b, i, v)
    {
      L.StmtLivenessExact(body, b, i, liveOut, v);
    }
    forall e
      ensures e in errors <==> Reported(body, loans, cache, b, i + 1, e)
    {
      if e.block == b && e.stmt == i {
        FoundIsConflict(body, loans, active, cache, live, e);
      } else {
        NotFoundElsewhere(loans, active, cache, b, i, e);
      }
    }
  }

  lemma NotFoundElsewhere(loans: seq<Loan>, active: seq<nat>, cache: Reservations, b: nat, i: nat, e: Error)
    requires !(e.block == b && e.stmt == i)
    ensures !Found(loans, active, cache, b, i, e.access, e.place, e)
  {
  }

  /**
  The conflicts of a body, given as many turns for each reservation analysis as `fuel` says; None
  when one of them has not ended by then. Errors name loans by their place in the list.
  */
  method CheckBorrows(body: Body, fuel: nat) returns (loans: seq<Loan>, r: Option<seq<Error>>)
    requires TargetsExist(body) && LocalsExist(body)
    ensures AllLoans(body, loans)
    ensures r.Some? <==> Finished(body, loans, fuel)
    ensures r.Some? ==> forall e :: e in r.value <==> Conflict(body, loans, e, StillReserved(body, loans, e, fuel))
  {
    hide L.UsedAhead, L.LivenessProblem, D.Arrives, D.Valid, Conflict, InReservation, AnalysisOf, TargetsExist,
         BlockLocalsExist;
    loans := CollectLoans(body);
    DestsExist(body, loans);
    var liveOut := L.ComputeLiveness(body);
    var reserved := Reserve(body, loans, fuel);
    if reserved.None? {
      return loans, None;
    }
    var cache := reserved.value;
    var errors := [];
    var byDest := IndexByDest(loans, |body.locals|);
    for b := 0 to |body.blocks|
      invariant forall e :: e in errors <==> Reported(body, loans, cache, b, 0, e)
    {
      errors := CheckBlock(body, loans, byDest, cache, b, liveOut[b], errors);
    }
    forall e
      ensures e in errors <==> Conflict(body, loans, e, StillReserved(body, loans, e, fuel))
    {
      ReportedAll(body, loans, cache, fuel, e);
    }
    r := Some(errors);
  }

  lemma DestsExist(body: Body, loans: seq<Loan>)
    requires LocalsExist(body) && AllLoans(body, loans)
    ensures forall k :: 0 <= k < |loans| ==> loans[k].dest as nat < |body.locals|
  {
    hide LocalsOf, RvalueReads, TerminatorReads;
  }

  /** What the loan's own analysis says about the point of e. */
  ghost predicate StillReserved(body: Body, loans: seq<Loan>, e: Error, fuel: nat)
    requires TargetsExist(body) && forall k :: 0 <= k < |loans| ==> IsLoan(body, loans[k])
  {
    && e.loan < |loans| && TwoPhase(loans[e.loan].kind)
    && var bits := AnalysisOf(body, loans[e.loan], fuel).bits; e.block < |bits| && e.stmt in bits[e.block]
  }

  lemma ReportedAll(body: Body, loans: seq<Loan>, cache: Reservations, fuel: nat, e: Error)
    requires TargetsExist(body) && AllLoans(body, loans) && |cache| == |loans| && CacheIs(body, loans, cache, fuel)
    ensures Reported(body, loans, cache, |body.blocks|, 0, e) <==>
            Conflict(body, loans, e, StillReserved(body, loans, e, fuel))
  {
    hide AnalysisOf, Conflict, TargetsExist;
    if e.loan < |loans| {
      assert InReservation(cache, e.loan, e.block, e.stmt) == StillReserved(body, loans, e, fuel);
    }
    if x :| Conflict(body, loans, e, x) {
      ConflictPoint(body, loans, e, x);
    }
  }

  // ----- what the answer means -----

  /** Every two-phase loan meets the condition under which its analysis is exact. */
  ghost predicate AllQuiet(body: Body, loans: seq<Loan>)
    requires TargetsExist(body) && forall k :: 0 <= k < |loans| ==> IsLoan(body, loans[k])
  {
    forall k :: 0 <= k < |loans| && TwoPhase(loans[k].kind) ==> Quiet(body, loans[k])
  }

  ghost predicate Quiet(body: Body, loan: Loan)
    requires TargetsExist(body) && IsLoan(body, loan)
  {
    LoanCfgValid(body, loan);
    RC.LoanBlockQuiet(LoanCfg(body, loan))
  }

  /** Some path from just after the loan reaches the point of e with no statement reading the reference. */
  ghost predicate UnreadSince(body: Body, loans: seq<Loan>, e: Error)
    requires TargetsExist(body) && forall k :: 0 <= k < |loans| ==> IsLoan(body, loans[k])
  {
    && e.loan < |loans| && TwoPhase(loans[e.loan].kind)
    && var g := LoanCfg(body, loans[e.loan]);
       LoanCfgValid(body, loans[e.loan]);
       e.block < |g.readsRef| && R.Reserved(g, e.block, e.stmt)
  }

  /**
  When every two-phase loan is quiet, one turn per block is enough and the errors are exactly the
  conflicting accesses, a loan counting as reserved where no path has read its reference yet.
  */
  lemma QuietCheckExact(body: Body, loans: seq<Loan>, fuel: nat, e: Error)
    requires TargetsExist(body) && AllLoans(body, loans) && AllQuiet(body, loans) && |body.blocks| <= fuel
    ensures Finished(body, loans, fuel)
    ensures Conflict(body, loans, e, StillReserved(body, loans, e, fuel)) <==>
            Conflict(body, loans, e, UnreadSince(body, loans, e))
  {
    hide Conflict, TargetsExist, RC.LoanBlockQuiet, R.Iterate, R.Start, R.Reserved, LoanCfg, R.Valid;
    forall k | 0 <= k < |loans| && TwoPhase(loans[k].kind)
      ensures AnalysisOf(body, loans[k], fuel).queue == []
      ensures RC.Exact(LoanCfg(body, loans[k]), AnalysisOf(body, loans[k], fuel))
    {
      assert Quiet(body, loans[k]);
      LoanCfgValid(body, loans[k]);
      QuietRunExact(LoanCfg(body, loans[k]), fuel);
    }
    if e.loan < |loans| && TwoPhase(loans[e.loan].kind) {
      LoanCfgValid(body, loans[e.loan]);
      assert StillReserved(body, loans, e, fuel) == UnreadSince(body, loans, e);
    }
  }

  lemma QuietRunExact(g: R.Cfg, fuel: nat)
    requires R.Valid(g) && RC.LoanBlockQuiet(g) && |g.readsRef| <= fuel
    ensures R.Iterate(g, R.Start(g), fuel).queue == [] && RC.Exact(g, R.Iterate(g, R.Start(g), fuel))
  {
    hide R.Iterate, R.Start, RC.LoanBlockQuiet, RC.Monotone, RC.Exact, RC.Pending;
    RC.StartMonotone(g);
    RC.QuietEnds(g, R.Start(g), fuel);
    RC.DoneExact(g, R.Iterate(g, R.Start(g), fuel));
  }

  /**
  A write to a borrowed place by an ordinary assignment is reported exactly when the reference is
  read by that very statement or, unless the assignment is to the reference itself, further ahead:
  by a later statement, or in a later block along some path, before anything redefines it. Whether
  the loan is reserved makes no difference.
  */
  lemma WriteConflictExact(body: Body, loans: seq<Loan>, b: nat, i: nat, k: nat, inReservation: bool)
    requires b < |body.blocks| && i < |body.blocks[b].statements| && k < |loans|
    requires var s := body.blocks[b].statements[i]; s.Assign? && !s.rvalue.Ref?
    ensures var s, loan := body.blocks[b].statements[i], loans[k];
            var next := i + 1;
            Conflict(body, loans, Error(Write, s.dest, k, b, i), inReservation) <==>
            && P.PlacesConflict(s.dest, loan.place)
            && (StatementReads(s, loan.dest) || (s.dest.local != loan.dest && L.UsedAhead(body, b, next, loan.dest)))
  {
    hide P.PlacesConflict, StatementReads, L.ReadInLaterBlock;
    UsedAheadNext(body, b, i, loans[k].dest);
  }

  lemma UsedAheadNext(body: Body, b: nat, i: nat, v: nat)
    requires b < |body.blocks| && i < |body.blocks[b].statements|
    ensures var s, next := body.blocks[b].statements[i], i + 1;
            L.UsedAhead(body, b, i, v) <==> StatementReads(s, v) || (!L.Kills(s, v) && L.UsedAhead(body, b, next, v))
  {
    hide StatementReads, L.ReadInLaterBlock, L.Kills;
    var ss := body.blocks[b].statements;
    var s := ss[i];
    if StatementReads(s, v) {
      assert L.Untouched(ss, i, i, v);
      assert L.ReadAhead(ss, i, v);
    }
    if !L.Kills(s, v) && L.ReadAhead(ss, i + 1, v) {
      var j :| i + 1 <= j < |ss| && StatementReads(ss[j], v) && L.Untouched(ss, i + 1, j, v);
      assert L.Untouched(ss, i, j, v);
    }
    if L.ReadAhead(ss, i, v) && !StatementReads(s, v) {
      var j :| i <= j < |ss| && StatementReads(ss[j], v) && L.Untouched(ss, i, j, v);
      assert L.Untouched(ss, i + 1, j, v);
    }
    assert L.Untouched(ss, i, |ss|, v) <==> !L.Kills(s, v) && L.Untouched(ss, i + 1, |ss|, v);
  }
}
