/** Do two places overlap? (crates/glyim-borrowck/src/visitor.rs, places_conflict) */
module Places {
  import opened Mir

  datatype Verdict = GoOn | Disjoint | Overlap

  /** What one pair of projection elements at the same depth says. */
  function Compare(x: ProjectionElem, y: ProjectionElem): Verdict {
    match (x, y)
    case (Deref, Deref) => GoOn
    case (Field(f), Field(g)) => if f == g then GoOn else Disjoint
    case (Downcast(v), Downcast(w)) => if v == w then GoOn else Disjoint
    case (Index(_), Index(_)) => GoOn
    case (ConstantIndex(o, false), ConstantIndex(p, false)) => if o != p then Disjoint else GoOn
    case (ConstantIndex(_, _), ConstantIndex(_, _)) => Overlap
    case (Field(_), Index(_)) => Disjoint
    case (Index(_), Field(_)) => Disjoint
    case (Subslice(f1, t1, false), Subslice(f2, t2, false)) => if f1 < t2 && f2 < t1 then GoOn else Disjoint
    case (Subslice(from, to, false), ConstantIndex(o, false)) => if from <= o < to then GoOn else Disjoint
    case (ConstantIndex(o, false), Subslice(from, to, false)) => if from <= o < to then GoOn else Disjoint
    case _ => Overlap
  }

  function ProjectionsConflict(a: seq<ProjectionElem>, b: seq<ProjectionElem>): bool
    decreases |a|
  {
    if a == [] || b == [] then true
    else
      match Compare(a[0], b[0])
      case Disjoint => false
      case Overlap => true
      case GoOn => ProjectionsConflict(a[1..], b[1..])
  }

  function PlacesConflict(a: Place, b: Place): bool {
    a.local == b.local && ProjectionsConflict(a.projection, b.projection)
  }

  method RunPlacesConflict(a: Place, b: Place) returns (r: bool)
    ensures r == PlacesConflict(a, b)
  {
    if a.local != b.local {
      return false;
    }
    var pa, pb := a.projection, b.projection;
    var n := if |pa| < |pb| then |pa| else |pb|;
    for i := 0 to n
      invariant ProjectionsConflict(pa, pb) == ProjectionsConflict(pa[i..], pb[i..])
    {
      match Compare(pa[i], pb[i]) {
        case Disjoint => return false;
        case Overlap => return true;
        case GoOn =>
      }
      assert pa[i..][1..] == pa[i + 1..] && pb[i..][1..] == pb[i + 1..];
    }
    r := true;
  }

  lemma {:induction false} ConflictSymmetric(a: Place, b: Place)
    ensures PlacesConflict(a, b) == PlacesConflict(b, a)
  {
    ProjectionsSymmetric(a.projection, b.projection);
  }

  lemma {:induction false} ProjectionsSymmetric(a: seq<ProjectionElem>, b: seq<ProjectionElem>)
    ensures ProjectionsConflict(a, b) == ProjectionsConflict(b, a)
    decreases |a|
  {
    if a != [] && b != [] {
      ProjectionsSymmetric(a[1..], b[1..]);
    }
  }

  // ----- what a place denotes -----

  /** One step into a value; a location is the list of steps from the local to it. */
  datatype Step = Follow | Member(field: nat) | Payload(variant: nat) | Element(index: int)

  type Location = seq<Step>

  /** The run-time values a projection depends on: index locals, and slice lengths by location. */
  datatype Env = Env(index: Local -> nat, length: Location -> nat)

  /** A place part-way resolved: a location, and when a subslice was taken the window of its elements. */
  datatype Cursor = At(location: Location) | Window(base: Location, lo: int, hi: int)

  function Low(c: Cursor): int {
    if c.At? then 0 else c.lo
  }

  function High(c: Cursor, env: Env): int {
    if c.At? then env.length(c.location) else c.hi
  }

  function Base(c: Cursor): Location {
    if c.At? then c.location else c.base
  }

  function Advance(c: Cursor, x: ProjectionElem, env: Env): Cursor {
    match x
    case Deref => At(Base(c) + [Follow])
    case Field(f) => At(Base(c) + [Member(f)])
    case Downcast(v) => At(Base(c) + [Payload(v)])
    case Index(l) => At(Base(c) + [Element(Low(c) + env.index(l))])
    case ConstantIndex(o, fromEnd) => At(Base(c) + [Element(if fromEnd then High(c, env) - o else Low(c) + o)])
    case Subslice(from, to, fromEnd) =>
      Window(Base(c), Low(c) + from, if fromEnd then High(c, env) - to else Low(c) + to)
  }

  function Resolve(c: Cursor, proj: seq<ProjectionElem>, env: Env): Cursor
    decreases |proj|
  {
    if proj == [] then c else Resolve(Advance(c, proj[0], env), proj[1..], env)
  }

  /** Location l lies in the region under the cursor. */
  ghost predicate Covers(c: Cursor, l: Location) {
    if c.At? then c.location <= l
    else exists e: int :: c.lo <= e < c.hi && c.base + [Element(e)] <= l
  }

  ghost predicate RegionHas(p: Place, env: Env, l: Location) {
    Covers(Resolve(At([]), p.projection, env), l)
  }

  // ----- typing -----

  datatype Shape =
    | Scalar
    | Pointer(target: Shape)
    | Record(fields: seq<Shape>)
    | Sum(variants: seq<Shape>)
    | Array(elem: Shape)

  predicate WellTyped(proj: seq<ProjectionElem>, t: Shape)
    decreases |proj|
  {
    proj == [] ||
    match proj[0]
    case Deref => t.Pointer? && WellTyped(proj[1..], t.target)
    case Field(f) => t.Record? && f < |t.fields| && WellTyped(proj[1..], t.fields[f])
    case Downcast(v) => t.Sum? && v < |t.variants| && WellTyped(proj[1..], t.variants[v])
    case Index(_) => t.Array? && WellTyped(proj[1..], t.elem)
    case ConstantIndex(_, _) => t.Array? && WellTyped(proj[1..], t.elem)
    case Subslice(_, _, _) => t.Array? && WellTyped(proj[1..], t)
  }

  predicate SubsliceOnlyLast(proj: seq<ProjectionElem>) {
    forall i :: 0 <= i < |proj| - 1 ==> !proj[i].Subslice?
  }

  // ----- soundness -----

  lemma {:induction false} ResolveExtends(c: Cursor, proj: seq<ProjectionElem>, env: Env, l: Location)
    requires Covers(Resolve(c, proj, env), l)
    ensures Base(c) <= l
    ensures c.Window? && proj == [] ==> exists e: int :: c.lo <= e < c.hi && c.base + [Element(e)] <= l
    decreases |proj|
  {
    if proj != [] {
      ResolveExtends(Advance(c, proj[0], env), proj[1..], env, l);
    }
  }

  lemma {:induction false} DisjointFrom(at: Location, a: seq<ProjectionElem>, b: seq<ProjectionElem>, t: Shape,
                                        env: Env, l: Location)
    requires WellTyped(a, t) && WellTyped(b, t) && SubsliceOnlyLast(a) && SubsliceOnlyLast(b)
    requires !ProjectionsConflict(a, b)
    ensures !(Covers(Resolve(At(at), a, env), l) && Covers(Resolve(At(at), b, env), l))
    decreases |a|
  {
    if Covers(Resolve(At(at), a, env), l) && Covers(Resolve(At(at), b, env), l) {
      var ca, cb := Advance(At(at), a[0], env), Advance(At(at), b[0], env);
      ResolveExtends(ca, a[1..], env, l);
      ResolveExtends(cb, b[1..], env, l);
      if ca.Window? || cb.Window? {
        WindowsMeet(at, a, b, env, l);
      } else {
        var n := |at|;
        assert l[n] == ca.location[n] && l[n] == cb.location[n];
        assert ca == cb;
        assert Compare(a[0], b[0]).GoOn?;
        TailsTyped(a, b, t);
        DisjointFrom(ca.location, a[1..], b[1..], ElementShape(a[0], t), env, l);
      }
    }
  }

  function ElementShape(x: ProjectionElem, t: Shape): Shape
    requires WellTyped([x], t)
  {
    match x
    case Deref => t.target
    case Field(f) => t.fields[f]
    case Downcast(v) => t.variants[v]
    case Index(_) => t.elem
    case ConstantIndex(_, _) => t.elem
    case Subslice(_, _, _) => t
  }

  lemma TailsTyped(a: seq<ProjectionElem>, b: seq<ProjectionElem>, t: Shape)
    requires a != [] && b != [] && WellTyped(a, t) && WellTyped(b, t) && Compare(a[0], b[0]).GoOn?
    requires !a[0].Subslice? && !b[0].Subslice? && SubsliceOnlyLast(a) && SubsliceOnlyLast(b)
    ensures WellTyped([a[0]], t)
    ensures WellTyped(a[1..], ElementShape(a[0], t)) && WellTyped(b[1..], ElementShape(a[0], t))
    ensures SubsliceOnlyLast(a[1..]) && SubsliceOnlyLast(b[1..])
  {
    assert [a[0]][1..] == [];
  }

  /** A window taken last meets an element or another window only where the comparison says so. */
  lemma WindowsMeet(at: Location, a: seq<ProjectionElem>, b: seq<ProjectionElem>, env: Env, l: Location)
    requires a != [] && b != [] && SubsliceOnlyLast(a) && SubsliceOnlyLast(b)
    requires a[0].Subslice? || b[0].Subslice?
    requires Covers(Resolve(At(at), a, env), l) && Covers(Resolve(At(at), b, env), l)
    ensures ProjectionsConflict(a, b)
  {
    var ca, cb := Advance(At(at), a[0], env), Advance(At(at), b[0], env);
    ResolveExtends(ca, a[1..], env, l);
    ResolveExtends(cb, b[1..], env, l);
    var n := |at|;
    if a[0].Subslice? {
      assert a[1..] == [];
      var e: int :| ca.lo <= e < ca.hi && ca.base + [Element(e)] <= l;
      assert l[n] == Element(e);
    }
    if b[0].Subslice? {
      assert b[1..] == [];
      var e: int :| cb.lo <= e < cb.hi && cb.base + [Element(e)] <= l;
      assert l[n] == Element(e);
    }
    if !a[0].Subslice? {
      assert l[n] == ca.location[n];
    }
    if !b[0].Subslice? {
      assert l[n] == cb.location[n];
    }
  }

  /**
  When the test says no, the two places share no location, whatever the index locals and lengths
  are, for well-typed places in which a subslice can only be the last projection.
  */
  lemma NoConflictIsDisjoint(a: Place, b: Place, t: Shape, env: Env, l: Location)
    requires a.local == b.local && WellTyped(a.projection, t) && WellTyped(b.projection, t)
    requires SubsliceOnlyLast(a.projection) && SubsliceOnlyLast(b.projection)
    requires !PlacesConflict(a, b)
    ensures !(RegionHas(a, env, l) && RegionHas(b, env, l))
  {
    DisjointFrom([], a.projection, b.projection, t, env, l);
  }

  /** Past a subslice the test compares offsets into different windows, and misses an overlap. */
  lemma InnerSubsliceUnsound()
    ensures var a := Place(0, [Subslice(0, 3, false), ConstantIndex(1, false)]);
            var b := Place(0, [Subslice(1, 4, false), ConstantIndex(0, false)]);
            && WellTyped(a.projection, Array(Scalar)) && WellTyped(b.projection, Array(Scalar))
            && !PlacesConflict(a, b)
            && forall env :: RegionHas(a, env, [Element(1)]) && RegionHas(b, env, [Element(1)])
  {
  }

  // ----- soundness past a subslice -----

  /** The step can be evaluated: elements and windows lie inside the slice they are taken from. */
  ghost predicate StepIn(c: Cursor, x: ProjectionElem, env: Env) {
    match x
    case Index(l) => Low(c) + env.index(l) < High(c, env)
    case ConstantIndex(o, fromEnd) => Low(c) <= (if fromEnd then High(c, env) - o else Low(c) + o) < High(c, env)
    case Subslice(_, _, _) => var w := Advance(c, x, env); w.lo <= w.hi <= High(c, env)
    case _ => true
  }

  ghost predicate InBounds(c: Cursor, proj: seq<ProjectionElem>, env: Env)
    decreases |proj|
  {
    proj == [] || (StepIn(c, proj[0], env) && InBounds(Advance(c, proj[0], env), proj[1..], env))
  }

  /** Subslices that both places pass start at the same offset, and none is passed against an element. */
  predicate Aligned(a: seq<ProjectionElem>, b: seq<ProjectionElem>)
    decreases |a|
  {
    |a| <= 1 || |b| <= 1 ||
    (Compare(a[0], b[0]).GoOn? ==> SameWindow(a[0], b[0]) && Aligned(a[1..], b[1..]))
  }

  predicate SameWindow(x: ProjectionElem, y: ProjectionElem) {
    x.Subslice? || y.Subslice? ==> x.Subslice? && y.Subslice? && x.from == y.from
  }

  /** What is taken from a window, in bounds, lies in the window. */
  lemma {:induction false} InWindow(c: Cursor, proj: seq<ProjectionElem>, t: Shape, env: Env, l: Location)
    requires c.Window? && t.Array? && WellTyped(proj, t) && InBounds(c, proj, env) && Covers(Resolve(c, proj, env), l)
    ensures c.base <= l && |c.base| < |l| && l[|c.base|].Element? && c.lo <= l[|c.base|].index < c.hi
    decreases |proj|
  {
    ResolveExtends(c, proj, env, l);
    var n := |c.base|;
    if proj == [] {
      var e: int :| c.lo <= e < c.hi && c.base + [Element(e)] <= l;
      assert l[n] == Element(e);
    } else {
      var next := Advance(c, proj[0], env);
      if next.Window? {
        InWindow(next, proj[1..], t, env, l);
      } else {
        ResolveExtends(next, proj[1..], env, l);
        assert l[n] == next.location[n];
      }
    }
  }

  lemma {:induction false} AlignedDisjoint(ca: Cursor, cb: Cursor, a: seq<ProjectionElem>, b: seq<ProjectionElem>,
                                           t: Shape, env: Env, l: Location)
    requires Base(ca) == Base(cb) && Low(ca) == Low(cb) && WellTyped(a, t) && WellTyped(b, t)
    requires InBounds(ca, a, env) && InBounds(cb, b, env)
    requires Aligned(a, b) && !ProjectionsConflict(a, b)
    ensures !(Covers(Resolve(ca, a, env), l) && Covers(Resolve(cb, b, env), l))
    decreases |a|
  {
    if Covers(Resolve(ca, a, env), l) && Covers(Resolve(cb, b, env), l) {
      var na, nb := Advance(ca, a[0], env), Advance(cb, b[0], env);
      StepInto(ca, a, t, env, l);
      StepInto(cb, b, t, env, l);
      if Compare(a[0], b[0]).GoOn? {
        assert Base(na) == Base(nb) && Low(na) == Low(nb);
        TailsTypedAlike(a, b, t);
        AlignedDisjoint(na, nb, a[1..], b[1..], ElementShape(a[0], t), env, l);
      }
    }
  }

  /** The first step of a covered location is the one the projection takes, or lies in its window. */
  lemma StepInto(c: Cursor, a: seq<ProjectionElem>, t: Shape, env: Env, l: Location)
    requires a != [] && WellTyped(a, t) && InBounds(c, a, env) && Covers(Resolve(c, a, env), l)
    ensures var n, next := |Base(c)|, Advance(c, a[0], env);
            && Base(c) <= l && n < |l|
            && if next.Window? then l[n].Element? && next.lo <= l[n].index < next.hi
               else next.location <= l && l[n] == next.location[n]
  {
    var next := Advance(c, a[0], env);
    ResolveExtends(next, a[1..], env, l);
    if next.Window? {
      InWindow(next, a[1..], t, env, l);
    }
  }

  lemma TailsTypedAlike(a: seq<ProjectionElem>, b: seq<ProjectionElem>, t: Shape)
    requires a != [] && b != [] && WellTyped(a, t) && WellTyped(b, t) && Compare(a[0], b[0]).GoOn?
    requires SameWindow(a[0], b[0])
    ensures WellTyped([a[0]], t)
    ensures WellTyped(a[1..], ElementShape(a[0], t)) && WellTyped(b[1..], ElementShape(a[0], t))
  {
    assert [a[0]][1..] == [];
  }

  /**
  Subslices may stand anywhere as long as those both places pass start at the same offset: when the
  test says no, the places share no location in any run in which both can be evaluated.
  */
  lemma AlignedIsDisjoint(a: Place, b: Place, t: Shape, env: Env, l: Location)
    requires a.local == b.local && WellTyped(a.projection, t) && WellTyped(b.projection, t)
    requires InBounds(At([]), a.projection, env) && InBounds(At([]), b.projection, env)
    requires Aligned(a.projection, b.projection) && !PlacesConflict(a, b)
    ensures !(RegionHas(a, env, l) && RegionHas(b, env, l))
  {
    AlignedDisjoint(At([]), At([]), a.projection, b.projection, t, env, l);
  }

  /** A subslice in last place is never passed by both. */
  lemma {:induction false} LastIsAligned(a: seq<ProjectionElem>, b: seq<ProjectionElem>)
    requires SubsliceOnlyLast(a) && SubsliceOnlyLast(b)
    ensures Aligned(a, b)
    decreases |a|
  {
    if |a| > 1 && |b| > 1 && Compare(a[0], b[0]).GoOn? {
      LastIsAligned(a[1..], b[1..]);
    }
  }

  // ----- unsoundness past a subslice, exactly -----

  predicate PassesItself(prefix: seq<ProjectionElem>) {
    forall x <- prefix :: Compare(x, x).GoOn?
  }

  lemma {:induction false} CommonPrefix(prefix: seq<ProjectionElem>, a: seq<ProjectionElem>, b: seq<ProjectionElem>)
    requires PassesItself(prefix)
    ensures ProjectionsConflict(prefix + a, prefix + b) == ProjectionsConflict(a, b)
    decreases |prefix|
  {
    if prefix == [] {
      assert prefix + a == a && prefix + b == b;
    } else {
      assert prefix[0] in prefix;
      assert (prefix + a)[1..] == prefix[1..] + a && (prefix + b)[1..] == prefix[1..] + b;
      CommonPrefix(prefix[1..], a, b);
    }
  }

  lemma {:induction false} ResolveSplit(c: Cursor, prefix: seq<ProjectionElem>, rest: seq<ProjectionElem>, env: Env)
    ensures Resolve(c, prefix + rest, env) == Resolve(Resolve(c, prefix, env), rest, env)
    ensures InBounds(c, prefix + rest, env) <==>
            InBounds(c, prefix, env) && InBounds(Resolve(c, prefix, env), rest, env)
    decreases |prefix|
  {
    if prefix == [] {
      assert prefix + rest == rest;
    } else {
      assert (prefix + rest)[1..] == prefix[1..] + rest;
      ResolveSplit(Advance(c, prefix[0], env), prefix[1..], rest, env);
    }
  }

  lemma ResolveTwo(c: Cursor, x: ProjectionElem, y: ProjectionElem, env: Env)
    ensures Resolve(c, [x, y], env) == Advance(Advance(c, x, env), y, env)
    ensures InBounds(c, [x, y], env) <==> StepIn(c, x, env) && StepIn(Advance(c, x, env), y, env)
  {
    var next := Advance(c, x, env);
    assert [x, y][1..] == [y] && [y][1..] == [];
    assert Resolve(next, [y], env) == Advance(next, y, env);
    assert InBounds(next, [y], env) <==> StepIn(next, y, env);
  }

  lemma ConflictOfTwo(x1: ProjectionElem, y1: ProjectionElem, x2: ProjectionElem, y2: ProjectionElem)
    ensures ProjectionsConflict([x1, y1], [x2, y2]) <==>
            Compare(x1, x2).Overlap? || (Compare(x1, x2).GoOn? && !Compare(y1, y2).Disjoint?)
  {
    hide Compare;
    assert [x1, y1][1..] == [y1] && [x2, y2][1..] == [y2] && [y1][1..] == [] && [y2][1..] == [];
    assert ProjectionsConflict([y1], [y2]) <==> !Compare(y1, y2).Disjoint?;
  }

  /** The two places share a location at run-time values for which both can be evaluated. */
  ghost predicate Meet(a: Place, b: Place, env: Env) {
    exists l :: RegionHas(a, env, l) && RegionHas(b, env, l)
  }

  /**
  Constant elements of two subslices of the same slice: "no" is wrong exactly when the offsets differ
  and the sums of window start and offset agree, the elements being in their windows.
  */
  lemma SlicedElementsExact(local: Local, prefix: seq<ProjectionElem>, f1: nat, t1: nat, o1: nat, f2: nat, t2: nat,
                            o2: nat, env: Env)
    requires PassesItself(prefix)
    requires InBounds(At([]), prefix + [Subslice(f1, t1, false), ConstantIndex(o1, false)], env)
    requires InBounds(At([]), prefix + [Subslice(f2, t2, false), ConstantIndex(o2, false)], env)
    ensures var a := Place(local, prefix + [Subslice(f1, t1, false), ConstantIndex(o1, false)]);
            var b := Place(local, prefix + [Subslice(f2, t2, false), ConstantIndex(o2, false)]);
            !PlacesConflict(a, b) && Meet(a, b, env) <==> o1 != o2 && f1 + o1 == f2 + o2
  {
    var w1, e1, w2, e2 :=
      Subslice(f1, t1, false), ConstantIndex(o1, false), Subslice(f2, t2, false), ConstantIndex(o2, false);
    var a, b := Place(local, prefix + [w1, e1]), Place(local, prefix + [w2, e2]);
    var c := Resolve(At([]), prefix, env);
    ResolveSplit(At([]), prefix, [w1, e1], env);
    ResolveSplit(At([]), prefix, [w2, e2], env);
    ResolveTwo(c, w1, e1, env);
    ResolveTwo(c, w2, e2, env);
    CommonPrefix(prefix, [w1, e1], [w2, e2]);
    ConflictOfTwo(w1, e1, w2, e2);
    var la, lb := Resolve(At([]), a.projection, env).location, Resolve(At([]), b.projection, env).location;
    assert la == Base(c) + [Element(Low(c) + f1 + o1)] && lb == Base(c) + [Element(Low(c) + f2 + o2)];
    assert la <= lb <==> la[|Base(c)|] == lb[|Base(c)|];
    SiblingsMeet(a, b, env, la, lb);
  }

  lemma SiblingsMeet(a: Place, b: Place, env: Env, la: Location, lb: Location)
    requires Resolve(At([]), a.projection, env) == At(la) && Resolve(At([]), b.projection, env) == At(lb)
    requires |la| > 0 && |la| <= |lb|
    ensures Meet(a, b, env) <==> la <= lb
  {
    if la <= lb {
      assert RegionHas(a, env, lb) && RegionHas(b, env, lb);
    }
    if l :| RegionHas(a, env, l) && RegionHas(b, env, l) {
      assert la <= l && lb <= l;
      assert forall k :: 0 <= k < |la| ==> la[k] == l[k] && lb[k] == l[k];
    }
  }

  /** The same for an element of a subslice and an element of an element. */
  lemma SliceAndElementExact(local: Local, prefix: seq<ProjectionElem>, f: nat, t: nat, o: nat, q: nat, r: nat,
                             env: Env)
    requires PassesItself(prefix)
    requires InBounds(At([]), prefix + [Subslice(f, t, false), ConstantIndex(o, false)], env)
    requires InBounds(At([]), prefix + [ConstantIndex(q, false), ConstantIndex(r, false)], env)
    ensures var a := Place(local, prefix + [Subslice(f, t, false), ConstantIndex(o, false)]);
            var b := Place(local, prefix + [ConstantIndex(q, false), ConstantIndex(r, false)]);
            !PlacesConflict(a, b) && Meet(a, b, env) <==> o != r && f + o == q
  {
    var w, x, y, z := Subslice(f, t, false), ConstantIndex(o, false), ConstantIndex(q, false), ConstantIndex(r, false);
    var a, b := Place(local, prefix + [w, x]), Place(local, prefix + [y, z]);
    var c := Resolve(At([]), prefix, env);
    ResolveSplit(At([]), prefix, [w, x], env);
    ResolveSplit(At([]), prefix, [y, z], env);
    ResolveTwo(c, w, x, env);
    ResolveTwo(c, y, z, env);
    CommonPrefix(prefix, [w, x], [y, z]);
    ConflictOfTwo(w, x, y, z);
    var la, lb := Resolve(At([]), a.projection, env).location, Resolve(At([]), b.projection, env).location;
    assert la == Base(c) + [Element(Low(c) + f + o)] && lb == Base(c) + [Element(Low(c) + q)] + [Element(r)];
    assert la <= lb <==> la[|Base(c)|] == lb[|Base(c)|];
    SiblingsMeet(a, b, env, la, lb);
  }
}
