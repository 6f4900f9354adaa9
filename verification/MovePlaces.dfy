/**
What statements move, initialise, end and use, told by places and not by the paths that stand for them
(crates/glyim-borrowck/src/move_analysis.rs).
*/
module MovePlaces {
  import opened Mir
  import opened Visitor
  import opened VisitorLaws
  import opened Moves
  import opened Wrappers

  predicate FieldIs(q: Place, l: Local, f: nat) {
    q == FieldPlace(l as nat, f)
  }

  ghost predicate IsFieldOf(q: Place, l: Local, fields: nat) {
    exists f :: 0 <= f < fields && FieldIs(q, l, f)
  }

  /** What is done to place p is done to the tracked place q: to the one p belongs to, or a field of it. */
  ghost predicate Reaches(counts: seq<Option<nat>>, p: Place, q: Place) {
    && p.local as nat < |counts| <= 0x1_0000_0000
    && var t := Tracked(p.local, FieldCount(counts[p.local]), p.projection);
       q == t || (t == Place(p.local, []) && IsFieldOf(q, p.local, FieldCount(counts[p.local])))
  }

  /** The paths a place stands for are those of the tracked places it reaches. */
  lemma GroupMeans(c: Ctx, counts: seq<Option<nat>>, p: Place, v: nat)
    requires Tracks(c.arena, counts) && Fixed(p) && v < |c.arena.paths|
    ensures v in Group(c.arena, p) <==> Reaches(counts, p, c.arena.paths[v].place)
  {
    hide Find, Fixed, Tracked;
    var a, l := c.arena, p.local as nat;
    FindMeans(a, counts, p);
    if l < |counts| {
      assert Rooted(a, l, FieldCount(counts[l]));
      GroupOfFound(a, counts, p, v);
    }
  }

  lemma GroupOfFound(a: Arena, counts: seq<Option<nat>>, p: Place, v: nat)
    requires Tracks(a, counts) && v < |a.paths| && p.local as nat < |counts|
    requires Rooted(a, p.local as nat, FieldCount(counts[p.local]))
    requires Find(a, p).Some? && Find(a, p).value < |a.paths|
    requires a.paths[Find(a, p).value].place == Tracked(p.local, FieldCount(counts[p.local]), p.projection)
    ensures v in Group(a, p) <==> Reaches(counts, p, a.paths[v].place)
  {
    hide Find, Tracked;
    var l, n := p.local as nat, FieldCount(counts[p.local]);
    var at, t := Find(a, p).value, Tracked(p.local, n, p.projection);
    TrackedIs(p.local, n, p.projection);
    assert v == at <==> a.paths[v].place == t;
    if t == Place(p.local, []) {
      assert at == a.roots[l];
      var children := a.paths[at].children;
      forall f | 0 <= f < n
        ensures v == children[f] <==> FieldIs(a.paths[v].place, p.local, f)
      {
        assert a.paths[children[f]].place == FieldPlace(l, f);
      }
    } else {
      var f :| 0 <= f < n && FieldIs(t, p.local, f);
      var child := a.paths[a.roots[l]].children[f];
      assert a.paths[child] == MovePath(t, []) && at == child;
    }
  }

  lemma {:induction false} TrackedIs(l: Local, fields: nat, proj: seq<ProjectionElem>)
    ensures var t := Tracked(l, fields, proj);
            t == Place(l, []) || IsFieldOf(t, l, fields)
    decreases |proj|
  {
    if proj != [] && proj[0].Index? {
      TrackedIs(l, fields, proj[1..]);
    } else if proj != [] && proj[0].Field? && proj[0].field < fields {
      assert FieldIs(Tracked(l, fields, proj), l, proj[0].field);
    }
  }

  // ----- what statements do to tracked places -----

  /** An operand of the assignment is moved out, and moving it does not copy. */
  ghost predicate MovesPlace(c: Ctx, counts: seq<Option<nat>>, s: Statement, q: Place) {
    s.Assign? && exists p :: IsOperand(s.rvalue, Move(p)) && !c.copies(p) && Reaches(counts, p, q)
  }

  ghost predicate StoresPlace(counts: seq<Option<nat>>, s: Statement, q: Place) {
    || (s.Assign? && Reaches(counts, s.dest, q))
    || (s.StorageLive? && Reaches(counts, Place(s.local, []), q))
  }

  ghost predicate EndsPlace(counts: seq<Option<nat>>, s: Statement, q: Place) {
    s.StorageDead? && Reaches(counts, Place(s.local, []), q)
  }

  lemma OperandsAre(r: Rvalue, o: Operand)
    ensures o in RvalueOperands(r) <==> IsOperand(r, o)
  {
  }

  lemma {:induction false} OperandMovesMean(c: Ctx, counts: seq<Option<nat>>, os: seq<Operand>, v: nat)
    requires Tracks(c.arena, counts) && v < |c.arena.paths| && forall o <- os :: o.Move? ==> Fixed(o.place)
    ensures v in OperandMoves(c, os) <==>
            exists p :: Move(p) in os && !c.copies(p) && Reaches(counts, p, c.arena.paths[v].place)
    decreases |os|
  {
    hide Group, Reaches, Tracks, Fixed;
    if os != [] {
      OperandMovesMean(c, counts, os[1..], v);
      assert os == [os[0]] + os[1..];
      if os[0].Move? {
        GroupMeans(c, counts, os[0].place, v);
      }
    }
  }

  lemma OperandsFixed(r: Rvalue)
    requires forall p <- RvalueReads(r) :: Fixed(p)
    ensures forall o <- RvalueOperands(r) :: o.Move? ==> Fixed(o.place)
  {
    hide Fixed, RvalueReads, RvalueOperands;
    forall o | o in RvalueOperands(r) && o.Move?
      ensures Fixed(o.place)
    {
      OperandsAre(r, o);
      RvalueReadsAre(r, o.place);
      assert IsOperand(r, o) && Takes(o, o.place);
    }
  }

  predicate FixedStatement(s: Statement) {
    s.Assign? ==> Fixed(s.dest) && forall p <- RvalueReads(s.rvalue) :: Fixed(p)
  }

  /** A path is moved by a statement that moves its place or ends its storage, and by no other. */
  lemma MovedMeans(c: Ctx, counts: seq<Option<nat>>, s: Statement, v: nat)
    requires Tracks(c.arena, counts) && v < |c.arena.paths| && FixedStatement(s)
    ensures var q := c.arena.paths[v].place;
            && (v in Gen(c, Moved, s) <==> MovesPlace(c, counts, s, q) || EndsPlace(counts, s, q))
            && (v in Gen(c, Dead, s) <==> EndsPlace(counts, s, q))
  {
    hide Group, Reaches, Tracks, OperandMoves, RvalueOperands, IsOperand;
    if s.Assign? {
      OperandsFixed(s.rvalue);
      OperandMovesMean(c, counts, RvalueOperands(s.rvalue), v);
      forall p: Place
        ensures Move(p) in RvalueOperands(s.rvalue) <==> IsOperand(s.rvalue, Move(p))
      {
        OperandsAre(s.rvalue, Move(p));
      }
    } else if s.StorageDead? {
      GroupMeans(c, counts, Place(s.local, []), v);
    }
  }

  /** A path has a value again after an assignment to its place or to its local, and when storage begins. */
  lemma InitsMean(c: Ctx, counts: seq<Option<nat>>, s: Statement, v: nat)
    requires Tracks(c.arena, counts) && v < |c.arena.paths| && FixedStatement(s)
    ensures v in Inits(c, s) <==> StoresPlace(counts, s, c.arena.paths[v].place)
  {
    hide Group, Reaches, Tracks;
    if s.Assign? {
      GroupMeans(c, counts, s.dest, v);
    } else if s.StorageLive? {
      GroupMeans(c, counts, Place(s.local, []), v);
    }
  }

  /** And after a call whose destination it is. */
  lemma CallInitsMean(c: Ctx, counts: seq<Option<nat>>, t: Terminator, v: nat)
    requires Tracks(c.arena, counts) && v < |c.arena.paths| && (t.Call? ==> Fixed(t.destination))
    ensures v in CallInits(c, t) <==> t.Call? && Reaches(counts, t.destination, c.arena.paths[v].place)
  {
    hide Group, Reaches, Tracks;
    if t.Call? {
      GroupMeans(c, counts, t.destination, v);
    }
  }

  // ----- uses -----

  lemma {:induction false} OperandUsesAre(os: seq<Operand>, u: Usage)
    ensures u in OperandUses(os) <==> u.asOperand && exists o :: o in os && Takes(o, u.place)
    decreases |os|
  {
    if os != [] {
      OperandUsesAre(os[1..], u);
      assert forall o :: o in os <==> o == os[0] || o in os[1..];
      assert u in OperandUses(os) <==> (!os[0].Constant? && u == Usage(os[0].place, true)) || u in OperandUses(os[1..]);
      assert Takes(os[0], u.place) <==> !os[0].Constant? && os[0].place == u.place;
    }
  }

  /** A statement uses its operands, copied or moved, and what it borrows or looks at. */
  lemma UsesAre(s: Statement, p: Place)
    ensures Usage(p, true) in StatementUses(s) <==> s.Assign? && exists o :: IsOperand(s.rvalue, o) && Takes(o, p)
    ensures Usage(p, false) in StatementUses(s) <==> s.Assign? && LooksAt(s.rvalue, p)
  {
    hide RvalueOperands, OperandUses, IsOperand;
    if s.Assign? {
      OperandUsesAre(RvalueOperands(s.rvalue), Usage(p, true));
      OperandUsesAre(RvalueOperands(s.rvalue), Usage(p, false));
      forall o
        ensures o in RvalueOperands(s.rvalue) <==> IsOperand(s.rvalue, o)
      {
        OperandsAre(s.rvalue, o);
      }
      if s.rvalue.Ref? || s.rvalue.Discriminant? || s.rvalue.Len? {
        NoOperands(s.rvalue);
      }
    }
  }

  lemma NoOperands(r: Rvalue)
    requires r.Ref? || r.Discriminant? || r.Len?
    ensures forall o :: !IsOperand(r, o)
  {
  }

  /** A use of a place is a use of the tracked place it belongs to; of a whole local, also of its fields. */
  lemma TouchesMean(c: Ctx, counts: seq<Option<nat>>, p: Place, v: nat)
    requires Tracks(c.arena, counts) && Fixed(p) && v < |c.arena.paths|
    ensures Touches(c, p, v) <==>
            && p.local as nat < |counts|
            && var q, n := c.arena.paths[v].place, FieldCount(counts[p.local]);
               || q == Tracked(p.local, n, p.projection)
               || (p.projection == [] && IsFieldOf(q, p.local, n))
  {
    hide Find, Fixed, Tracked;
    var a, l := c.arena, p.local as nat;
    FindMeans(a, counts, p);
    if l < |counts| {
      var n := FieldCount(counts[l]);
      assert Rooted(a, l, n);
      var at, children := Find(a, p).value, a.paths[a.roots[l]].children;
      assert v == at <==> a.paths[v].place == a.paths[at].place;
      forall f | 0 <= f < n
        ensures v == children[f] <==> FieldIs(a.paths[v].place, p.local, f)
      {
        assert a.paths[children[f]].place == FieldPlace(l, f);
      }
    }
  }
}
