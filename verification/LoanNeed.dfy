/**
Which loans are needed, told by the first touch of the reference along each path, and when the
checker's notion of an active loan differs from it (crates/glyim-borrowck/src/lib.rs and liveness.rs).
*/
module LoanNeed {
  import opened Mir
  import opened Visitor
  import opened Borrowck
  import L = Liveness
  import P = Places

  // ----- touching a reference -----

  /**
  A write to a projection of v goes through v and so needs its value; a write to v itself replaces it;
  a return hands local 0 to the caller.
  */
  datatype Touch = Untouched | Read | Through | Returned | Redefined

  function WriteTouch(place: Place, v: nat): Touch {
    if place.local as nat != v then Untouched
    else if place.projection == [] then Redefined
    else Through
  }

  function StatementTouch(s: Statement, v: nat): Touch {
    if StatementReads(s, v) then Touch.Read
    else if s.Assign? then WriteTouch(s.dest, v)
    else if s.StorageDead? && s.local as nat == v then Redefined
    else Untouched
  }

  /** Dropping v itself needs nothing of what it refers to. */
  function TerminatorTouch(t: Terminator, v: nat): Touch {
    if ReadsLocal(TerminatorReads(t), v) then Touch.Read
    else if t.Call? then WriteTouch(t.destination, v)
    else if t.Drop? && WriteTouch(t.place, v).Through? then Through
    else if t.Return? && v == 0 then Returned
    else Untouched
  }

  /** The first touch from statement i on, the terminator not included. */
  function StatementsTouch(ss: seq<Statement>, i: nat, v: nat): Touch
    requires i <= |ss|
    decreases |ss| - i
  {
    if i == |ss| then Untouched
    else if StatementTouch(ss[i], v).Untouched? then StatementsTouch(ss, i + 1, v)
    else StatementTouch(ss[i], v)
  }

  function BlockTouch(bb: BasicBlock, i: nat, v: nat): Touch
    requires i <= |bb.statements|
  {
    var t := StatementsTouch(bb.statements, i, v);
    if t.Untouched? then TerminatorTouch(bb.terminator, v) else t
  }

  predicate IsPath(body: Body, path: seq<nat>) {
    && path != [] && path[0] < |body.blocks|
    && (|path| > 1 ==> path[1] in Successors(body.blocks[path[0]].terminator) && IsPath(body, path[1..]))
  }

  /** The first touch along a path that starts at statement i of its first block. */
  function PathTouch(body: Body, path: seq<nat>, i: nat, v: nat): Touch
    requires IsPath(body, path) && i <= |body.blocks[path[0]].statements|
    decreases |path|
  {
    var t := BlockTouch(body.blocks[path[0]], i, v);
    if t.Untouched? && |path| > 1 then PathTouch(body, path[1..], 0, v) else t
  }

  ghost predicate From(body: Body, path: seq<nat>, b: nat) {
    IsPath(body, path) && path[0] == b
  }

  predicate Uses(t: Touch) {
    t.Read? || t.Through? || t.Returned?
  }

  /** Some path from point (b, i) reads v, writes through it or returns it before anything replaces it. */
  ghost predicate Needed(body: Body, b: nat, i: nat, v: nat)
    requires b < |body.blocks| && i <= |body.blocks[b].statements|
  {
    exists path :: From(body, path, b) && Uses(PathTouch(body, path, i, v))
  }

  // ----- what the checker looks at instead -----

  /** The rest of the block leaves v alone and the block's own terminator is the first to touch it. */
  predicate TouchedByTerminator(body: Body, b: nat, i: nat, v: nat)
    requires b < |body.blocks| && i <= |body.blocks[b].statements|
  {
    var bb := body.blocks[b];
    StatementsTouch(bb.statements, i, v).Untouched? && !TerminatorTouch(bb.terminator, v).Untouched?
  }

  ghost predicate ReadFirst(body: Body, b: nat, i: nat, v: nat)
    requires b < |body.blocks| && i <= |body.blocks[b].statements|
  {
    !TouchedByTerminator(body, b, i, v) && exists path :: From(body, path, b) && PathTouch(body, path, i, v).Read?
  }

  /**
  The checker finds a read in a later block, but only by looking past an earlier touch: at the
  block's own terminator, or (in a later block) at the end of the storage or a drop through v.
  */
  ghost predicate ReadPast(body: Body, b: nat, i: nat, v: nat)
    requires b < |body.blocks| && i <= |body.blocks[b].statements|
  {
    && StatementsTouch(body.blocks[b].statements, i, v).Untouched?
    && exists path :: ReadSeen(body, b, path, v) &&
                      (TouchedByTerminator(body, b, i, v) || !(IsPath(body, path) && PathTouch(body, path, 0, v).Read?))
  }

  ghost predicate ReadSeen(body: Body, b: nat, path: seq<nat>, v: nat)
    requires b < |body.blocks|
  {
    path != [] && path[0] in Successors(body.blocks[b].terminator) && L.LeadsToRead(body, path, v)
  }

  // ----- statements of one block -----

  /** To the statement scan every assignment is a redefinition and only reads are uses. */
  lemma TouchIs(s: Statement, v: nat)
    ensures StatementTouch(s, v).Read? <==> StatementReads(s, v)
    ensures StatementTouch(s, v).Untouched? <==> !StatementReads(s, v) && !L.Kills(s, v)
  {
  }

  lemma {:induction false} StatementsTouchIs(ss: seq<Statement>, i: nat, v: nat)
    requires i <= |ss|
    ensures StatementsTouch(ss, i, v).Read? <==> L.ReadAhead(ss, i, v)
    ensures StatementsTouch(ss, i, v).Untouched? <==> !L.ReadAhead(ss, i, v) && L.Untouched(ss, i, |ss|, v)
    decreases |ss| - i
  {
    hide L.Kills, StatementReads, StatementTouch;
    if i < |ss| {
      TouchIs(ss[i], v);
      StatementsTouchIs(ss, i + 1, v);
      if StatementReads(ss[i], v) {
        assert L.Untouched(ss, i, i, v);
      }
      if !L.Kills(ss[i], v) && L.ReadAhead(ss, i + 1, v) {
        var j :| i + 1 <= j < |ss| && StatementReads(ss[j], v) && L.Untouched(ss, i + 1, j, v);
        assert L.Untouched(ss, i, j, v);
      }
      if L.ReadAhead(ss, i, v) && !StatementReads(ss[i], v) {
        var j :| i <= j < |ss| && StatementReads(ss[j], v) && L.Untouched(ss, i, j, v);
        assert L.Untouched(ss, i + 1, j, v);
      }
    }
  }

  lemma TerminatorTouchIs(t: Terminator, v: nat)
    ensures TerminatorTouch(t, v).Read? <==> ReadsLocal(TerminatorReads(t), v)
    ensures TerminatorTouch(t, v).Untouched? ==> v !in L.CallDefs(t)
  {
  }

  /** A block whose first touch is a read has an exposed one; one that does not touch v does not define it. */
  lemma BlockTouchSeen(bb: BasicBlock, v: nat)
    ensures BlockTouch(bb, 0, v).Read? ==> L.Exposed(bb, v)
    ensures BlockTouch(bb, 0, v).Untouched? ==> !L.Exposed(bb, v) && !L.Defines(bb, v)
  {
    hide L.CallDefs, TerminatorTouch, StatementsTouch, StatementReads, ReadsLocal, TerminatorReads;
    var ss := bb.statements;
    StatementsTouchIs(ss, 0, v);
    TerminatorTouchIs(bb.terminator, v);
    L.ScanOfBlock(bb, {}, v);
    if BlockTouch(bb, 0, v).Untouched? && L.Exposed(bb, v) {
      ExposedMeans(bb, v);
    }
  }

  lemma ExposedMeans(bb: BasicBlock, v: nat)
    requires L.Exposed(bb, v) && L.Untouched(bb.statements, 0, |bb.statements|, v)
    ensures L.ReadAhead(bb.statements, 0, v) || ReadsLocal(TerminatorReads(bb.terminator), v)
  {
    hide StatementReads, L.Kills;
    var ss := bb.statements;
    if j :| 0 <= j < |ss| && StatementReads(ss[j], v) && L.Unassigned(ss, j, v) {
      assert L.Untouched(ss, 0, j, v);
    }
  }

  // ----- paths -----

  /** A read that comes first on a path is one the dataflow analysis finds. */
  lemma {:induction false} ReadFirstSeen(body: Body, path: seq<nat>, v: nat)
    requires IsPath(body, path) && PathTouch(body, path, 0, v).Read?
    ensures exists p :: p != [] && p[0] == path[0] && L.LeadsToRead(body, p, v)
    decreases |path|
  {
    hide BlockTouch, L.Exposed, L.Defines, Successors;
    BlockTouchSeen(body.blocks[path[0]], v);
    if BlockTouch(body.blocks[path[0]], 0, v).Read? {
      assert L.LeadsToRead(body, [path[0]], v);
    } else {
      ReadFirstSeen(body, path[1..], v);
      var p :| p != [] && p[0] == path[1] && L.LeadsToRead(body, p, v);
      assert ([path[0]] + p)[1..] == p;
      assert L.LeadsToRead(body, [path[0]] + p, v);
    }
  }

  lemma {:induction false} SeenIsPath(body: Body, path: seq<nat>, v: nat)
    requires L.LeadsToRead(body, path, v)
    ensures IsPath(body, path)
    decreases |path|
  {
    hide L.Exposed, L.Defines, Successors;
    if |path| > 1 {
      SeenIsPath(body, path[1..], v);
    }
  }

  lemma PathFrom(body: Body, b: nat, i: nat, path: seq<nat>, v: nat)
    requires b < |body.blocks| && i <= |body.blocks[b].statements|
    requires IsPath(body, path) && path[0] in Successors(body.blocks[b].terminator)
    requires BlockTouch(body.blocks[b], i, v).Untouched?
    ensures From(body, [b] + path, b) && PathTouch(body, [b] + path, i, v) == PathTouch(body, path, 0, v)
  {
    hide BlockTouch, Successors;
    assert ([b] + path)[1..] == path;
  }

  // ----- active loans against needed ones -----

  /** A loan counts as active exactly when a read comes first on some path, or is found past another touch. */
  lemma ActiveMeans(body: Body, b: nat, i: nat, v: nat)
    requires b < |body.blocks| && i <= |body.blocks[b].statements|
    ensures L.UsedAhead(body, b, i, v) <==> ReadFirst(body, b, i, v) || ReadPast(body, b, i, v)
  {
    hide StatementsTouch, TerminatorTouch, L.ReadAhead, L.Untouched, L.LeadsToRead, Successors;
    var bb := body.blocks[b];
    StatementsTouchIs(bb.statements, i, v);
    if ReadFirst(body, b, i, v) {
      ReadFirstActive(body, b, i, v);
    }
    if ReadPast(body, b, i, v) {
      var path :| ReadSeen(body, b, path, v);
      assert L.ReadInLaterBlock(body, b, v);
    }
    if L.UsedAhead(body, b, i, v) && !ReadFirst(body, b, i, v) {
      ActiveReadPast(body, b, i, v);
    }
  }

  lemma ReadFirstActive(body: Body, b: nat, i: nat, v: nat)
    requires b < |body.blocks| && i <= |body.blocks[b].statements| && ReadFirst(body, b, i, v)
    ensures L.UsedAhead(body, b, i, v)
  {
    hide StatementsTouch, TerminatorTouch, L.ReadAhead, L.Untouched, L.LeadsToRead, Successors;
    StatementsTouchIs(body.blocks[b].statements, i, v);
    var path :| From(body, path, b) && PathTouch(body, path, i, v).Read?;
    if StatementsTouch(body.blocks[b].statements, i, v).Untouched? {
      ReadFirstSeen(body, path[1..], v);
      var p :| p != [] && p[0] == path[1] && L.LeadsToRead(body, p, v);
      assert L.ReadInLaterBlock(body, b, v);
    }
  }

  lemma ActiveReadPast(body: Body, b: nat, i: nat, v: nat)
    requires b < |body.blocks| && i <= |body.blocks[b].statements|
    requires L.UsedAhead(body, b, i, v) && !ReadFirst(body, b, i, v)
    ensures ReadPast(body, b, i, v)
  {
    hide StatementsTouch, TerminatorTouch, L.ReadAhead, L.Untouched, L.LeadsToRead, Successors;
    var bb := body.blocks[b];
    StatementsTouchIs(bb.statements, i, v);
    if L.ReadAhead(bb.statements, i, v) {
      ReadHereFirst(body, b, i, v);
    }
    var path :| path != [] && path[0] in Successors(bb.terminator) && L.LeadsToRead(body, path, v);
    assert ReadSeen(body, b, path, v);
    SeenIsPath(body, path, v);
    if !TouchedByTerminator(body, b, i, v) && PathTouch(body, path, 0, v).Read? {
      PathFrom(body, b, i, path, v);
    }
  }

  lemma ReadHereFirst(body: Body, b: nat, i: nat, v: nat)
    requires b < |body.blocks| && i <= |body.blocks[b].statements|
    requires StatementsTouch(body.blocks[b].statements, i, v).Read?
    ensures ReadFirst(body, b, i, v)
  {
    hide StatementsTouch, TerminatorTouch, Successors;
    assert From(body, [b], b) && PathTouch(body, [b], i, v).Read?;
  }

  /** Every path that needs v first writes through it or returns it. */
  ghost predicate NeverReadFirst(body: Body, b: nat, i: nat, v: nat)
    requires b < |body.blocks| && i <= |body.blocks[b].statements|
  {
    forall path :: From(body, path, b) ==> !PathTouch(body, path, i, v).Read?
  }

  /**
  A loan is dropped exactly when no path reads the reference before it writes through it, returns it
  or replaces it, or the block's own terminator touches it first, and the checker does not happen to
  find a read past such a touch. One no longer needed is kept exactly when it finds such a read.
  */
  lemma ActiveVersusNeeded(body: Body, b: nat, i: nat, v: nat)
    requires b < |body.blocks| && i <= |body.blocks[b].statements|
    ensures !L.UsedAhead(body, b, i, v) <==>
            && !ReadPast(body, b, i, v)
            && (NeverReadFirst(body, b, i, v) || TouchedByTerminator(body, b, i, v))
    ensures L.UsedAhead(body, b, i, v) && !Needed(body, b, i, v) <==>
            ReadPast(body, b, i, v) && !Needed(body, b, i, v)
  {
    hide ReadPast, L.UsedAhead, TouchedByTerminator, PathTouch, IsPath;
    ActiveMeans(body, b, i, v);
    if ReadFirst(body, b, i, v) {
      var path :| From(body, path, b) && PathTouch(body, path, i, v).Read?;
      assert Uses(PathTouch(body, path, i, v));
    }
  }

  // ----- conditions that can be read off the body -----

  /** No storage of v is ended and nothing is dropped through it: there is no touch the checker looks past. */
  predicate NothingHidden(body: Body, v: nat) {
    forall b :: 0 <= b < |body.blocks| ==> BlockHidesNothing(body.blocks[b], v)
  }

  predicate BlockHidesNothing(bb: BasicBlock, v: nat) {
    && (forall k :: 0 <= k < |bb.statements| ==> !EndsStorage(bb.statements[k], v))
    && !(bb.terminator.Drop? && WriteTouch(bb.terminator.place, v).Through?)
  }

  predicate EndsStorage(s: Statement, v: nat) {
    s.StorageDead? && s.local as nat == v
  }

  /** Nothing in the body writes to a projection of v. */
  predicate NeverWrittenThrough(body: Body, v: nat) {
    forall b :: 0 <= b < |body.blocks| ==> BlockNeverWritesThrough(body.blocks[b], v)
  }

  predicate BlockNeverWritesThrough(bb: BasicBlock, v: nat) {
    && (forall k :: 0 <= k < |bb.statements| ==> !StatementTouch(bb.statements[k], v).Through?)
    && !TerminatorTouch(bb.terminator, v).Through?
  }

  lemma BlockTouchExact(bb: BasicBlock, v: nat)
    requires BlockHidesNothing(bb, v)
    ensures BlockTouch(bb, 0, v).Read? <==> L.Exposed(bb, v)
    ensures var t := BlockTouch(bb, 0, v);
            t.Untouched? || t.Read? || L.Defines(bb, v) || Successors(bb.terminator) == []
  {
    hide StatementReads, StatementsTouch, ReadsLocal, TerminatorReads;
    var ss := bb.statements;
    BlockTouchSeen(bb, v);
    StatementsTouchIs(ss, 0, v);
    if j :| 0 <= j < |ss| && StatementReads(ss[j], v) && L.Unassigned(ss, j, v) {
      assert forall k :: 0 <= k < j ==> !EndsStorage(ss[k], v) && !Assigns(ss[k], v);
      assert L.Untouched(ss, 0, j, v);
    }
    if L.Unassigned(ss, |ss|, v) {
      assert forall k :: 0 <= k < |ss| ==> !EndsStorage(ss[k], v) && !Assigns(ss[k], v);
      assert L.Untouched(ss, 0, |ss|, v);
    }
  }

  lemma {:induction false} SeenIsFirst(body: Body, path: seq<nat>, v: nat)
    requires NothingHidden(body, v) && L.LeadsToRead(body, path, v)
    ensures IsPath(body, path) && PathTouch(body, path, 0, v).Read?
    decreases |path|
  {
    hide BlockHidesNothing, BlockTouch, L.Exposed, L.Defines, Successors;
    BlockTouchExact(body.blocks[path[0]], v);
    if |path| > 1 {
      SeenIsFirst(body, path[1..], v);
    }
  }

  lemma ReadPastTerminator(body: Body, b: nat, i: nat, v: nat)
    requires b < |body.blocks| && i <= |body.blocks[b].statements| && NothingHidden(body, v)
    ensures ReadPast(body, b, i, v) <==> TouchedByTerminator(body, b, i, v) && L.ReadInLaterBlock(body, b, v)
  {
    hide NothingHidden, StatementsTouch, TerminatorTouch, PathTouch, IsPath, L.LeadsToRead, Successors;
    if ReadPast(body, b, i, v) {
      var path :| ReadSeen(body, b, path, v) &&
                  (TouchedByTerminator(body, b, i, v) || !(IsPath(body, path) && PathTouch(body, path, 0, v).Read?));
      SeenIsFirst(body, path, v);
    }
    if TouchedByTerminator(body, b, i, v) && L.ReadInLaterBlock(body, b, v) {
      var path :| path != [] && path[0] in Successors(body.blocks[b].terminator) && L.LeadsToRead(body, path, v);
      assert ReadSeen(body, b, path, v);
    }
  }

  /**
  Where nothing is hidden, away from the block's terminator, active loans are needed, and a needed one
  is dropped exactly when no path reads it first.
  */
  lemma DroppedExactly(body: Body, b: nat, i: nat, v: nat)
    requires b < |body.blocks| && i <= |body.blocks[b].statements|
    requires NothingHidden(body, v) && !TouchedByTerminator(body, b, i, v)
    ensures Needed(body, b, i, v) && !L.UsedAhead(body, b, i, v) <==>
            Needed(body, b, i, v) && NeverReadFirst(body, b, i, v)
    ensures L.UsedAhead(body, b, i, v) ==> Needed(body, b, i, v)
  {
    hide NothingHidden, ReadPast, L.UsedAhead, TouchedByTerminator, PathTouch, IsPath;
    ActiveVersusNeeded(body, b, i, v);
    ReadPastTerminator(body, b, i, v);
  }

  lemma {:induction false} NoThroughOnPath(body: Body, path: seq<nat>, i: nat, v: nat)
    requires NeverWrittenThrough(body, v) && v != 0 && IsPath(body, path) && i <= |body.blocks[path[0]].statements|
    ensures Uses(PathTouch(body, path, i, v)) ==> PathTouch(body, path, i, v).Read?
    decreases |path|
  {
    hide StatementTouch, Successors, TerminatorReads, ReadsLocal;
    var bb := body.blocks[path[0]];
    assert BlockNeverWritesThrough(bb, v);
    NoThroughInStatements(bb.statements, i, v);
    if |path| > 1 {
      NoThroughOnPath(body, path[1..], 0, v);
    }
  }

  lemma {:induction false} NoThroughInStatements(ss: seq<Statement>, i: nat, v: nat)
    requires i <= |ss| && forall k :: 0 <= k < |ss| ==> !StatementTouch(ss[k], v).Through?
    ensures !StatementsTouch(ss, i, v).Through? && !StatementsTouch(ss, i, v).Returned?
    decreases |ss| - i
  {
    hide StatementReads;
    if i < |ss| {
      NoThroughInStatements(ss, i + 1, v);
    }
  }

  /** When the terminator is the first to touch v, it decides alone. */
  lemma TerminatorDecides(body: Body, b: nat, i: nat, v: nat)
    requires b < |body.blocks| && i <= |body.blocks[b].statements| && TouchedByTerminator(body, b, i, v)
    ensures Needed(body, b, i, v) <==> Uses(TerminatorTouch(body.blocks[b].terminator, v))
    ensures L.UsedAhead(body, b, i, v) <==> L.ReadInLaterBlock(body, b, v)
    ensures !TerminatorTouch(body.blocks[b].terminator, v).Untouched?
  {
    hide StatementsTouch, TerminatorTouch, L.ReadInLaterBlock, L.ReadAhead, L.Untouched, Successors;
    StatementsTouchIs(body.blocks[b].statements, i, v);
    assert From(body, [b], b) && PathTouch(body, [b], i, v) == TerminatorTouch(body.blocks[b].terminator, v);
  }

  /**
  If nothing writes through the reference and it is not the one returned, only the block's own
  terminator makes a needed loan inactive.
  */
  lemma OnlyTerminatorDiffers(body: Body, b: nat, i: nat, v: nat)
    requires b < |body.blocks| && i <= |body.blocks[b].statements|
    requires NeverWrittenThrough(body, v) && v != 0
    ensures var t := TerminatorTouch(body.blocks[b].terminator, v);
            var atEnd, later := TouchedByTerminator(body, b, i, v), L.ReadInLaterBlock(body, b, v);
            && (Needed(body, b, i, v) && !L.UsedAhead(body, b, i, v) <==> atEnd && t.Read? && !later)
            && (NothingHidden(body, v) ==>
                  (L.UsedAhead(body, b, i, v) && !Needed(body, b, i, v) <==> atEnd && t.Redefined? && later))
  {
    hide NeverWrittenThrough, NothingHidden, L.UsedAhead, L.ReadInLaterBlock, TouchedByTerminator, PathTouch, IsPath,
         ReadPast, TerminatorTouch;
    var t := TerminatorTouch(body.blocks[b].terminator, v);
    ActiveVersusNeeded(body, b, i, v);
    if TouchedByTerminator(body, b, i, v) {
      TerminatorDecides(body, b, i, v);
      TerminatorNotThrough(body, b, v);
      assert t.Read? || t.Redefined?;
    } else if path :| From(body, path, b) && Uses(PathTouch(body, path, i, v)) {
      NoThroughOnPath(body, path, i, v);
    }
    if NothingHidden(body, v) {
      ReadPastTerminator(body, b, i, v);
    }
  }

  lemma TerminatorNotThrough(body: Body, b: nat, v: nat)
    requires b < |body.blocks| && NeverWrittenThrough(body, v) && v != 0
    ensures var t := TerminatorTouch(body.blocks[b].terminator, v); !t.Through? && !t.Returned?
  {
    hide TerminatorReads, ReadsLocal;
    assert BlockNeverWritesThrough(body.blocks[b], v);
  }
}
