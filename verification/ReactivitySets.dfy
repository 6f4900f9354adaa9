/** The threaded collections of Reactivity as plain unions: which paths they end up with, and why. */
module ReactivitySets {
  import opened GsxExpr
  import opened Reactivity
  import opened Wrappers

  function StepsOf(places: set<Place>): set<Steps> {
    set p | p in places :: p.steps
  }

  // ----- reads -----

  /** The path of a receiver or base, with a stand-in for what is not a path. */
  function ChainSteps(e: Expr, param: string): Steps {
    match e
    case Var(x) => if x == param then [] else [FieldStep(x)]
    case Field(b, name) => ChainSteps(b, param) + [FieldStep(name)]
    case Index(b, _) => ChainSteps(b, param) + [IndexStep]
    case _ => [FieldStep("")]
  }

  /** Everything read on the way along a receiver or base, the path itself excepted. */
  function ChainReads(e: Expr, param: string, full: bool): set<Steps>
    decreases e, 1
  {
    match e
    case Var(_) => {}
    case Field(b, _) => ChainReads(b, param, full)
    case Index(b, i) => ReadSteps(i, param, full) + ChainReads(b, param, full)
    case _ => ReadSteps(e, param, full)
  }

  /**
  The paths an expression reads as the analysis has it, or in full: also those whose length or
  elements it asks for.
  */
  function ReadSteps(e: Expr, param: string, full: bool): set<Steps>
    decreases e, 0
  {
    match e
    case Var(x) => if x == param then {[]} else {}
    case Lit(_) => {}
    case Field(b, name) => ChainReads(b, param, full) + {ChainSteps(b, param) + [FieldStep(name)]}
    case Index(b, i) => ReadSteps(i, param, full) + ChainReads(b, param, full) + {ChainSteps(b, param) + [IndexStep]}
    case Call(_, args) => AllReads(args, param, full)
    case Method(recv, name, args) =>
      ChainReads(recv, param, full) + (if SafeRead(name) && !full then {}
                                       else {ChainSteps(recv, param)}) + AllReads(args, param, full)
    case Closure(_, body) => ReadSteps(body, param, full)
    case Unary(_, inner) => ReadSteps(inner, param, full)
    case Binary(_, l, r) => ReadSteps(l, param, full) + ReadSteps(r, param, full)
    case Assign(lhs, op, rhs) => (if op.Some? then ReadSteps(lhs, param, full) else {}) + ReadSteps(rhs, param, full)
    case If(cond, thn, els) => ReadSteps(cond, param, full) + ReadSteps(thn, param, full) + MaybeReads(els, param, full)
    case Match(scrutinee, arms) => ReadSteps(scrutinee, param, full) + ArmReads(arms, param, full)
    case For(_, iter, key, body) =>
      ReadSteps(iter, param, full) + MaybeReads(key, param, full) + ReadSteps(body, param, full)
    case Block(stmts, tail) => AllReads(stmts, param, full) + MaybeReads(tail, param, full)
    case Let(_, init) => ReadSteps(init, param, full)
    case Flow => {}
    case Opaque(_) => {}
    case Gsx => {}
  }

  function MaybeReads(e: Option<Expr>, param: string, full: bool): set<Steps>
    decreases e, 1
  {
    if e.Some? then ReadSteps(e.value, param, full) else {}
  }

  function AllReads(es: seq<Expr>, param: string, full: bool): set<Steps>
    decreases es, 1
  {
    if es == [] then {} else ReadSteps(es[0], param, full) + AllReads(es[1..], param, full)
  }

  function ArmReads(arms: seq<MatchArm>, param: string, full: bool): set<Steps>
    decreases arms, 1
  {
    if arms == [] then {}
    else MaybeReads(arms[0].guard, param, full) + ReadSteps(arms[0].body, param, full) + ArmReads(arms[1..], param,
                                                                                                  full)
  }

  lemma StepsOfAdd(places: set<Place>, p: Place)
    ensures StepsOf(places + {p}) == StepsOf(places) + {p.steps}
  {
  }

  /** The collected paths are the ones before and those the expression reads. */
  lemma {:induction false} ReadsAre(e: Expr, param: string, acc: set<Place>)
    ensures StepsOf(CollectReads(e, param, acc)) == StepsOf(acc) + ReadSteps(e, param, false)
    decreases e, 1
  {
    hide StepsOf, CollectAllReads, CollectArmReads, CollectMaybeReads, CollectArgReads, AllReads, ArmReads, MaybeReads;
    hide ChainSteps, ChainReads, PlaceOf, ArgPlace;
    match e
    case Var(x) => StepsOfAdd(acc, Root());
    case Lit(_) =>
    case Field(b, name) =>
      PlaceOfIs(b, param, acc);
      var (place, found) := PlaceOf(b, param, acc);
      StepsOfAdd(found, FieldOf(place, name));
    case Index(b, i) =>
      ReadsAre(i, param, acc);
      PlaceOfIs(b, param, CollectReads(i, param, acc));
      var (place, found) := PlaceOf(b, param, CollectReads(i, param, acc));
      StepsOfAdd(found, IndexOf(place));
    case Call(name, args) =>
      if name == "trusted" { AllReadsAre(args, param, acc); } else { ArgReadsAre(args, param, acc); }
    case Method(recv, name, args) =>
      PlaceOfIs(recv, param, acc);
      var (place, found) := PlaceOf(recv, param, acc);
      StepsOfAdd(found, place.(subtree := true));
      AllReadsAre(args, param, if SafeRead(name) then found else found + {place.(subtree := true)});
    case Closure(_, body) => ReadsAre(body, param, acc);
    case Unary(_, inner) => ReadsAre(inner, param, acc);
    case Binary(_, l, r) =>
      ReadsAre(l, param, acc);
      ReadsAre(r, param, CollectReads(l, param, acc));
    case Assign(_, _, _) => ControlReadsAre(e, param, acc);
    case If(_, _, _) => ControlReadsAre(e, param, acc);
    case Match(_, _) => ControlReadsAre(e, param, acc);
    case For(_, _, _, _) => ControlReadsAre(e, param, acc);
    case Block(_, _) => ControlReadsAre(e, param, acc);
    case Let(_, init) => ReadsAre(init, param, acc);
    case Flow =>
    case Opaque(_) =>
    case Gsx =>
  }

  lemma {:induction false} ControlReadsAre(e: Expr, param: string, acc: set<Place>)
    requires e.Assign? || e.If? || e.Match? || e.For? || e.Block?
    ensures StepsOf(CollectReads(e, param, acc)) == StepsOf(acc) + ReadSteps(e, param, false)
    decreases e, 0
  {
    hide StepsOf, CollectAllReads, CollectArmReads, CollectMaybeReads, AllReads, ArmReads, MaybeReads;
    if e.Assign? {
      if e.op.Some? { ReadsAre(e.lhs, param, acc); }
      ReadsAre(e.rhs, param, if e.op.Some? then CollectReads(e.lhs, param, acc) else acc);
    } else if e.If? {
      var a1 := CollectReads(e.cond, param, acc);
      ReadsAre(e.cond, param, acc);
      ReadsAre(e.thn, param, a1);
      MaybeReadsAre(e.els, param, CollectReads(e.thn, param, a1));
    } else if e.Match? {
      ReadsAre(e.scrutinee, param, acc);
      ArmReadsAre(e.arms, param, CollectReads(e.scrutinee, param, acc));
    } else if e.For? {
      var a1 := CollectReads(e.iter, param, acc);
      ReadsAre(e.iter, param, acc);
      MaybeReadsAre(e.key, param, a1);
      ReadsAre(e.body, param, CollectMaybeReads(e.key, param, a1));
    } else {
      AllReadsAre(e.stmts, param, acc);
      MaybeReadsAre(e.tail, param, CollectAllReads(e.stmts, param, acc));
    }
  }

  lemma {:induction false} MaybeReadsAre(e: Option<Expr>, param: string, acc: set<Place>)
    ensures StepsOf(CollectMaybeReads(e, param, acc)) == StepsOf(acc) + MaybeReads(e, param, false)
    decreases e, 1
  {
    hide StepsOf;
    if e.Some? {
      ReadsAre(e.value, param, acc);
    }
  }

  lemma {:induction false} AllReadsAre(es: seq<Expr>, param: string, acc: set<Place>)
    ensures StepsOf(CollectAllReads(es, param, acc)) == StepsOf(acc) + AllReads(es, param, false)
    decreases es, 1
  {
    hide StepsOf;
    if es != [] {
      ReadsAre(es[0], param, acc);
      AllReadsAre(es[1..], param, CollectReads(es[0], param, acc));
    }
  }

  lemma {:induction false} ArmReadsAre(arms: seq<MatchArm>, param: string, acc: set<Place>)
    ensures StepsOf(CollectArmReads(arms, param, acc)) == StepsOf(acc) + ArmReads(arms, param, false)
    decreases arms, 1
  {
    hide StepsOf;
    if arms != [] {
      var a1 := CollectMaybeReads(arms[0].guard, param, acc);
      MaybeReadsAre(arms[0].guard, param, acc);
      ReadsAre(arms[0].body, param, a1);
      ArmReadsAre(arms[1..], param, CollectReads(arms[0].body, param, a1));
    }
  }

  /** Widening an argument's place to its subtree trades one entry for another with the same path. */
  lemma {:induction false} ArgReadsAre(es: seq<Expr>, param: string, acc: set<Place>)
    ensures StepsOf(CollectArgReads(es, param, acc)) == StepsOf(acc) + AllReads(es, param, false)
    decreases es, 1
  {
    if es != [] {
      var found, p := CollectReads(es[0], param, acc), ArgPlace(es[0], param);
      ReadsAre(es[0], param, acc);
      if p.Some? {
        ArgIsChain(es[0], param, false);
        var shallow, deep := p.value.(subtree := false), p.value.(subtree := true);
        Widened(found, shallow, deep);
        ArgReadsAre(es[1..], param, (found - {shallow}) + {deep});
      } else {
        ArgReadsAre(es[1..], param, found);
      }
    }
  }

  lemma Widened(found: set<Place>, shallow: Place, deep: Place)
    requires shallow.steps == deep.steps
    ensures StepsOf((found - {shallow}) + {deep}) == StepsOf(found) + {deep.steps}
  {
    forall s
      ensures s in StepsOf((found - {shallow}) + {deep}) <==> s in StepsOf(found) + {deep.steps}
    {
      if s in StepsOf(found) {
        var p :| p in found && p.steps == s;
        assert p != shallow ==> p in (found - {shallow}) + {deep};
        assert deep in (found - {shallow}) + {deep};
      }
      if s == deep.steps {
        assert deep in (found - {shallow}) + {deep};
      }
    }
  }

  /** A place argument is a chain from the state parameter, and reading it collects it. */
  lemma {:induction false} ArgIsChain(e: Expr, param: string, full: bool)
    requires ArgPlace(e, param).Some?
    ensures ArgPlace(e, param).value.steps == ChainSteps(e, param) && ChainSteps(e, param) in ReadSteps(e, param, full)
    ensures e.Var? || e.Field? || e.Index?
  {
    if e.Field? || e.Index? {
      ArgIsChain(e.base, param, full);
    }
  }

  lemma {:induction false} PlaceOfIs(e: Expr, param: string, acc: set<Place>)
    ensures PlaceOf(e, param, acc).0.steps == ChainSteps(e, param)
    ensures StepsOf(PlaceOf(e, param, acc).1) == StepsOf(acc) + ChainReads(e, param, false)
    decreases e, 2
  {
    hide StepsOf;
    if e.Var? {
    } else if e.Field? {
      PlaceOfIs(e.base, param, acc);
    } else if e.Index? {
      ReadsAre(e.index, param, acc);
      PlaceOfIs(e.base, param, CollectReads(e.index, param, acc));
    } else {
      ReadsAre(e, param, acc);
    }
  }

  // ----- writes -----

  function ArgSteps(e: Expr, param: string): set<Steps> {
    var p := ArgPlace(e, param);
    if p.Some? then {p.value.steps} else {}
  }

  function AllArgSteps(es: seq<Expr>, param: string): set<Steps> {
    if es == [] then {} else ArgSteps(es[0], param) + AllArgSteps(es[1..], param)
  }

  function WriteSteps(e: Expr, param: string): set<Steps>
    decreases e, 0
  {
    match e
    case Assign(lhs, _, rhs) =>
      (if ArgPlace(lhs, param).None? && !lhs.Var? then {[]} else ArgSteps(lhs, param)) + WriteSteps(rhs, param)
    case Call(name, args) => (if MutatingCall(name) then AllArgSteps(args, param) else {}) + AllWrites(args, param)
    case Method(recv, name, args) =>
      (if MutatingMethod(name) then ArgSteps(recv, param) else {}) + AllWrites(args, param)
    case Closure(_, body) => WriteSteps(body, param)
    case Unary(_, inner) => WriteSteps(inner, param)
    case Binary(_, l, r) => WriteSteps(l, param) + WriteSteps(r, param)
    case If(cond, thn, els) => WriteSteps(cond, param) + WriteSteps(thn, param) + MaybeWrites(els, param)
    case Match(scrutinee, arms) => WriteSteps(scrutinee, param) + ArmWrites(arms, param)
    case For(_, iter, key, body) => WriteSteps(iter, param) + MaybeWrites(key, param) + WriteSteps(body, param)
    case Block(stmts, tail) => AllWrites(stmts, param) + MaybeWrites(tail, param)
    case Let(_, init) => WriteSteps(init, param)
    case _ => {}
  }

  function MaybeWrites(e: Option<Expr>, param: string): set<Steps>
    decreases e, 1
  {
    if e.Some? then WriteSteps(e.value, param) else {}
  }

  function AllWrites(es: seq<Expr>, param: string): set<Steps>
    decreases es, 1
  {
    if es == [] then {} else WriteSteps(es[0], param) + AllWrites(es[1..], param)
  }

  function ArmWrites(arms: seq<MatchArm>, param: string): set<Steps>
    decreases arms, 1
  {
    if arms == [] then {}
    else MaybeWrites(arms[0].guard, param) + WriteSteps(arms[0].body, param) + ArmWrites(arms[1..], param)
  }

  lemma StepsOfUnion(a: set<Place>, b: set<Place>)
    ensures StepsOf(a + b) == StepsOf(a) + StepsOf(b)
  {
  }

  lemma {:induction false} ArgPlacesAre(es: seq<Expr>, param: string)
    ensures StepsOf(ArgPlaces(es, param)) == AllArgSteps(es, param)
  {
    if es != [] {
      ArgPlacesAre(es[1..], param);
      var p := ArgPlace(es[0], param);
      StepsOfUnion(if p.Some? then {p.value.(subtree := true)} else {}, ArgPlaces(es[1..], param));
    }
  }

  lemma {:induction false} WritesAre(e: Expr, param: string, acc: set<Place>)
    ensures StepsOf(CollectWrites(e, param, acc)) == StepsOf(acc) + WriteSteps(e, param)
    decreases e, 0
  {
    hide StepsOf, CollectAllWrites, CollectArmWrites, CollectMaybeWrites, AllWrites, ArmWrites, MaybeWrites;
    hide ArgPlace, ArgPlaces, AllArgSteps, MutatingCall, MutatingMethod;
    match e
    case Assign(lhs, _, rhs) =>
      var p := ArgPlace(lhs, param);
      StepsOfAdd(acc, Root());
      if p.Some? { StepsOfAdd(acc, p.value); }
      WritesAre(rhs, param, if p.Some? then acc + {p.value} else if lhs.Var? then acc else acc + {Root()});
    case Call(name, args) =>
      ArgPlacesAre(args, param);
      StepsOfUnion(acc, ArgPlaces(args, param));
      AllWritesAre(args, param, if MutatingCall(name) then acc + ArgPlaces(args, param) else acc);
    case Method(recv, name, args) =>
      var p := ArgPlace(recv, param);
      if p.Some? { StepsOfAdd(acc, p.value.(subtree := true)); }
      AllWritesAre(args, param, if MutatingMethod(name) && p.Some? then acc + {p.value.(subtree := true)} else acc);
    case Closure(_, body) => WritesAre(body, param, acc);
    case Unary(_, inner) => WritesAre(inner, param, acc);
    case Binary(_, l, r) =>
      WritesAre(l, param, acc);
      WritesAre(r, param, CollectWrites(l, param, acc));
    case If(cond, thn, els) =>
      var a1 := CollectWrites(cond, param, acc);
      var a2 := CollectWrites(thn, param, a1);
      WritesAre(cond, param, acc);
      WritesAre(thn, param, a1);
      MaybeWritesAre(els, param, a2);
    case Match(scrutinee, arms) =>
      WritesAre(scrutinee, param, acc);
      ArmWritesAre(arms, param, CollectWrites(scrutinee, param, acc));
    case For(_, iter, key, body) =>
      var a1 := CollectWrites(iter, param, acc);
      var a2 := CollectMaybeWrites(key, param, a1);
      WritesAre(iter, param, acc);
      MaybeWritesAre(key, param, a1);
      WritesAre(body, param, a2);
    case Block(stmts, tail) =>
      AllWritesAre(stmts, param, acc);
      MaybeWritesAre(tail, param, CollectAllWrites(stmts, param, acc));
    case Let(_, init) => WritesAre(init, param, acc);
    case Var(_) =>
    case Lit(_) =>
    case Field(_, _) =>
    case Index(_, _) =>
    case Flow =>
    case Opaque(_) =>
    case Gsx =>
  }

  lemma {:induction false} MaybeWritesAre(e: Option<Expr>, param: string, acc: set<Place>)
    ensures StepsOf(CollectMaybeWrites(e, param, acc)) == StepsOf(acc) + MaybeWrites(e, param)
    decreases e, 1
  {
    hide StepsOf;
    if e.Some? {
      WritesAre(e.value, param, acc);
    }
  }

  lemma {:induction false} AllWritesAre(es: seq<Expr>, param: string, acc: set<Place>)
    ensures StepsOf(CollectAllWrites(es, param, acc)) == StepsOf(acc) + AllWrites(es, param)
    decreases es, 1
  {
    hide StepsOf;
    if es != [] {
      WritesAre(es[0], param, acc);
      AllWritesAre(es[1..], param, CollectWrites(es[0], param, acc));
    }
  }

  lemma {:induction false} ArmWritesAre(arms: seq<MatchArm>, param: string, acc: set<Place>)
    ensures StepsOf(CollectArmWrites(arms, param, acc)) == StepsOf(acc) + ArmWrites(arms, param)
    decreases arms, 1
  {
    hide StepsOf;
    if arms != [] {
      var a1 := CollectMaybeWrites(arms[0].guard, param, acc);
      MaybeWritesAre(arms[0].guard, param, acc);
      WritesAre(arms[0].body, param, a1);
      ArmWritesAre(arms[1..], param, CollectWrites(arms[0].body, param, a1));
    }
  }

  lemma OverlapIs(read: set<Place>, written: set<Place>)
    ensures AnyInterference(read, written) <==>
            exists r, w :: r in StepsOf(read) && w in StepsOf(written) && Overlap(r, w)
  {
    hide Overlap;
    if r, w :| r in StepsOf(read) && w in StepsOf(written) && Overlap(r, w) {
      var p :| p in read && p.steps == r;
      var q :| q in written && q.steps == w;
    }
    if AnyInterference(read, written) {
      var p, q :| p in read && q in written && Overlap(p.steps, q.steps);
      assert p.steps in StepsOf(read) && q.steps in StepsOf(written);
    }
  }

  /** The analysis' own verdict, in terms of the paths. */
  lemma InterferenceIs(slot: Expr, handler: Expr, param: string)
    ensures AnyInterference(ReadSet(slot, param), WriteSet(handler, param)) <==>
            exists r, w :: r in ReadSteps(slot, param, false) && w in WriteSteps(handler, param) && Overlap(r, w)
  {
    hide CollectReads, CollectWrites, ReadSteps, WriteSteps, Overlap, AnyInterference;
    ReadsAre(slot, param, {});
    WritesAre(handler, param, {});
    assert StepsOf({}) == {};
    OverlapIs(ReadSet(slot, param), WriteSet(handler, param));
  }
}
