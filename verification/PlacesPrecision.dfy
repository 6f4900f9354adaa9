/** When the overlap test says yes, can the places overlap? (crates/glyim-borrowck/src/visitor.rs, places_conflict) */
module PlacesPrecision {
  import opened Mir
  import opened Places

  /** A pair of projection elements after which both places stand at one location. */
  predicate Passes(x: ProjectionElem, y: ProjectionElem) {
    Compare(x, y).GoOn? && !x.Subslice? && !y.Subslice?
  }

  /** The first pair that is not just passed decides; there is none when one place is a prefix of the other. */
  predicate Decided(a: seq<ProjectionElem>, b: seq<ProjectionElem>)
    decreases |a|
  {
    a != [] && b != [] && (Passes(a[0], b[0]) ==> Decided(a[1..], b[1..]))
  }

  function Depth(a: seq<ProjectionElem>, b: seq<ProjectionElem>): nat
    requires Decided(a, b)
    decreases |a|
  {
    if Passes(a[0], b[0]) then 1 + Depth(a[1..], b[1..]) else 0
  }

  function Deciding(a: seq<ProjectionElem>, b: seq<ProjectionElem>): (ProjectionElem, ProjectionElem)
    requires Decided(a, b)
    decreases |a|
  {
    if Passes(a[0], b[0]) then Deciding(a[1..], b[1..]) else (a[0], b[0])
  }

  /** Where the test gives up comparing, one of the places ends. */
  predicate EndsThere(a: seq<ProjectionElem>, b: seq<ProjectionElem>)
    decreases |a|
  {
    a == [] || b == [] ||
    if Passes(a[0], b[0]) then EndsThere(a[1..], b[1..])
    else Compare(a[0], b[0]).Overlap? ==> |a| == 1 || |b| == 1
  }

  /** Element e of a slice of the given length is (among) what the projection takes, index locals holding k. */
  predicate Reaches(x: ProjectionElem, k: nat, length: nat, e: nat) {
    && e < length
    && match x
       case Index(_) => e == k
       case ConstantIndex(o, fromEnd) => if fromEnd then o >= 1 && e == length - o else e == o
       case Subslice(from, to, fromEnd) =>
         if fromEnd then from <= e < length - to else from <= e < to <= length
       case _ => false
  }

  /** Some length and some value of the index locals make the two take a common element. */
  predicate CanReach(x: ProjectionElem, y: ProjectionElem) {
    match (x, y)
    case (Index(_), _) => Takes(y)
    case (_, Index(_)) => Takes(x)
    case (ConstantIndex(o, false), ConstantIndex(p, false)) => o == p
    case (ConstantIndex(o, true), ConstantIndex(p, true)) => o == p && Takes(x)
    case (ConstantIndex(_, _), ConstantIndex(_, _)) => Takes(x) && Takes(y)
    case (ConstantIndex(o, false), Subslice(from, to, false)) => from <= o < to
    case (Subslice(from, to, false), ConstantIndex(o, false)) => from <= o < to
    case (ConstantIndex(o, false), Subslice(from, _, true)) => from <= o
    case (Subslice(from, _, true), ConstantIndex(o, false)) => from <= o
    case (ConstantIndex(o, true), Subslice(_, to, true)) => o > to
    case (Subslice(_, to, true), ConstantIndex(o, true)) => o > to
    case (Subslice(f1, t1, false), Subslice(f2, t2, false)) => f1 < t1 && f2 < t2 && f1 < t2 && f2 < t1
    case (Subslice(f1, t1, false), Subslice(f2, _, true)) => f1 < t1 && f2 < t1
    case (Subslice(f1, _, true), Subslice(f2, t2, false)) => f2 < t2 && f1 < t2
    case _ => Takes(x) && Takes(y)
  }

  /** Not an empty window, nor the element before the first one from the end. */
  predicate Takes(x: ProjectionElem) {
    match x
    case ConstantIndex(o, true) => o >= 1
    case Subslice(from, to, false) => from < to
    case _ => true
  }

  /** The places can overlap as far as windows and offsets go. */
  predicate CanMeet(a: seq<ProjectionElem>, b: seq<ProjectionElem>)
    decreases |a|
  {
    if a == [] || b == [] then AllTake(a) && AllTake(b)
    else if Passes(a[0], b[0]) then CanMeet(a[1..], b[1..])
    else CanReach(a[0], b[0]) && AllTake(a[1..]) && AllTake(b[1..])
  }

  predicate AllTake(proj: seq<ProjectionElem>) {
    forall x <- proj :: Takes(x)
  }

  ghost predicate CanOverlap(a: Place, b: Place) {
    exists env: Env, l: Location ::
      && InBounds(At([]), a.projection, env) && InBounds(At([]), b.projection, env)
      && RegionHas(a, env, l) && RegionHas(b, env, l)
  }

  // ----- overlap needs the windows to meet -----

  lemma {:induction false} CoveredTakes(c: Cursor, proj: seq<ProjectionElem>, env: Env, l: Location)
    requires SubsliceOnlyLast(proj) && InBounds(c, proj, env) && Covers(Resolve(c, proj, env), l)
    ensures AllTake(proj)
    decreases |proj|
  {
    if proj != [] {
      assert SubsliceOnlyLast(proj[1..]);
      if |proj| == 1 {
        assert Resolve(Advance(c, proj[0], env), [], env) == Advance(c, proj[0], env);
        assert proj[1..] == [];
      }
      CoveredTakes(Advance(c, proj[0], env), proj[1..], env, l);
    }
  }

  lemma ReachedTogether(x: ProjectionElem, y: ProjectionElem, k: nat, k': nat, length: nat, e: nat)
    requires Reaches(x, k, length, e) && Reaches(y, k', length, e)
    ensures CanReach(x, y)
  {
  }

  predicate OnArray(x: ProjectionElem) {
    x.Index? || x.ConstantIndex? || x.Subslice?
  }

  lemma DecidesOnArrays(x: ProjectionElem, y: ProjectionElem, t: Shape)
    requires WellTyped([x], t) && WellTyped([y], t) && !Compare(x, y).Disjoint? && !Passes(x, y)
    ensures OnArray(x) && OnArray(y)
  {
  }

  lemma StepReaches(c: Cursor, a: seq<ProjectionElem>, t: Shape, env: Env, l: Location) returns (k: nat)
    requires c.At? && a != [] && OnArray(a[0]) && WellTyped(a, t) && InBounds(c, a, env)
    requires Covers(Resolve(c, a, env), l) && SubsliceOnlyLast(a)
    ensures var n := |c.location|;
            n < |l| && l[n].Element? && 0 <= l[n].index && Reaches(a[0], k, env.length(c.location), l[n].index)
  {
    StepInto(c, a, t, env, l);
    k := if a[0].Index? then env.index(a[0].index) else 0;
  }

  lemma WellTypedHead(a: seq<ProjectionElem>, t: Shape)
    requires a != [] && WellTyped(a, t)
    ensures WellTyped([a[0]], t)
  {
    assert [a[0]][1..] == [];
  }

  lemma {:induction false} OverlapMeets(c: Cursor, a: seq<ProjectionElem>, b: seq<ProjectionElem>, t: Shape, env: Env,
                                        l: Location)
    requires c.At? && WellTyped(a, t) && WellTyped(b, t) && SubsliceOnlyLast(a) && SubsliceOnlyLast(b)
    requires InBounds(c, a, env) && InBounds(c, b, env) && ProjectionsConflict(a, b)
    requires Covers(Resolve(c, a, env), l) && Covers(Resolve(c, b, env), l)
    ensures CanMeet(a, b)
    decreases |a|
  {
    hide CanReach, AllTake, Reaches;
    CoveredTakes(c, a, env, l);
    CoveredTakes(c, b, env, l);
    if a != [] && b != [] {
      if Passes(a[0], b[0]) {
        StepInto(c, a, t, env, l);
        StepInto(c, b, t, env, l);
        TailsTyped(a, b, t);
        OverlapMeets(Advance(c, a[0], env), a[1..], b[1..], ElementShape(a[0], t), env, l);
      } else {
        WellTypedHead(a, t);
        WellTypedHead(b, t);
        DecidesOnArrays(a[0], b[0], t);
        var k := StepReaches(c, a, t, env, l);
        var k' := StepReaches(c, b, t, env, l);
        ReachedTogether(a[0], b[0], k, k', env.length(c.location), l[|c.location|].index);
        TailTakes(a);
        TailTakes(b);
      }
    }
  }

  lemma TailTakes(proj: seq<ProjectionElem>)
    requires AllTake(proj) && proj != []
    ensures AllTake(proj[1..])
  {
  }

  // ----- windows that meet overlap in some run -----

  lemma ReachAlone(x: ProjectionElem) returns (k: nat, length: nat, e: nat)
    requires OnArray(x) && Takes(x)
    ensures k == e && Reaches(x, k, length, e)
  {
    match x {
      case Index(_) => k, length, e := 0, 1, 0;
      case ConstantIndex(o, fromEnd) => e := if fromEnd then 0 else o; k, length := e, if fromEnd then o else o + 1;
      case Subslice(from, to, fromEnd) => k, length, e := from, if fromEnd then from + to + 1 else to, from;
    }
  }

  /** A value for the index locals, a length and an element that both take. */
  lemma ReachTogether(x: ProjectionElem, y: ProjectionElem) returns (k: nat, length: nat, e: nat)
    requires OnArray(x) && OnArray(y) && CanReach(x, y)
    ensures Reaches(x, k, length, e) && Reaches(y, k, length, e)
  {
    if x.Index? {
      k, length, e := ReachAlone(y);
    } else if y.Index? {
      k, length, e := ReachAlone(x);
    } else if x.ConstantIndex? && y.ConstantIndex? {
      if x.fromEnd == y.fromEnd {
        k, length, e := ReachAlone(x);
      } else {
        k, length, e := 0, x.offset + y.offset, if x.fromEnd then y.offset else x.offset;
      }
    } else if x.Subslice? && y.Subslice? {
      e := if x.from < y.from then y.from else x.from;
      k, length := 0, e + x.to + y.to + 1;
    } else if x.Subslice? {
      k, length, e := WindowAndElement(x, y);
    } else {
      k, length, e := WindowAndElement(y, x);
    }
  }

  lemma WindowAndElement(window: ProjectionElem, elem: ProjectionElem) returns (k: nat, length: nat, e: nat)
    requires window.Subslice? && elem.ConstantIndex? && (CanReach(window, elem) || CanReach(elem, window))
    ensures Reaches(window, k, length, e) && Reaches(elem, k, length, e)
  {
    k := 0;
    if elem.fromEnd {
      e := if window.sliceFromEnd then window.from else window.to - 1;
      length := e + elem.offset;
    } else {
      e, length := elem.offset, if window.sliceFromEnd then elem.offset + window.to + 1 else window.to;
    }
  }

  /** A slice of this length has room for the projection, index locals holding k. */
  predicate Fits(x: ProjectionElem, k: nat, length: nat) {
    match x
    case Index(_) => k < length
    case ConstantIndex(o, _) => o < length
    case Subslice(from, to, _) => from + to < length
    case _ => true
  }

  function Need(x: ProjectionElem): nat {
    match x
    case ConstantIndex(o, _) => o
    case Subslice(from, to, _) => from + to
    case _ => 0
  }

  function Ample(proj: seq<ProjectionElem>, k: nat): nat {
    if proj == [] then k + 1 else Need(proj[0]) + Ample(proj[1..], k)
  }

  lemma {:induction false} AmpleFits(proj: seq<ProjectionElem>, k: nat, length: nat)
    requires Ample(proj, k) <= length
    ensures k < length && forall x <- proj :: Fits(x, k, length)
  {
    if proj != [] {
      AmpleFits(proj[1..], k, length);
      AmpleAbove(proj[1..], k);
      assert forall x <- proj :: x == proj[0] || x in proj[1..];
    }
  }

  lemma {:induction false} AmpleAbove(proj: seq<ProjectionElem>, k: nat)
    ensures Ample(proj, k) > k
  {
    if proj != [] {
      AmpleAbove(proj[1..], k);
    }
  }

  /** Index locals hold k, and every slice at least as deep as the cursor has the given length. */
  ghost predicate Roomy(env: Env, k: nat, depth: nat, length: nat) {
    && (forall v :: env.index(v) == k)
    && (forall l: Location :: |l| >= depth ==> env.length(l) == length)
  }

  /** Some location under the cursor is covered, with every step in bounds. */
  lemma {:induction false} RestCovers(c: Cursor, proj: seq<ProjectionElem>, t: Shape, env: Env, k: nat, length: nat)
    returns (l: Location)
    requires c.At? && WellTyped(proj, t) && SubsliceOnlyLast(proj) && AllTake(proj)
    requires Roomy(env, k, |c.location|, length) && forall x <- proj :: Fits(x, k, length)
    ensures c.location <= l && Covers(Resolve(c, proj, env), l) && InBounds(c, proj, env)
    decreases |proj|
  {
    if proj == [] {
      l := c.location;
    } else {
      var next := Advance(c, proj[0], env);
      assert Takes(proj[0]) && Fits(proj[0], k, length);
      assert StepIn(c, proj[0], env);
      if next.Window? {
        assert proj[1..] == [];
        l := next.base + [Element(next.lo)];
        assert Covers(next, l);
      } else {
        WellTypedTail(proj, t);
        TailTakes(proj);
        l := RestCovers(next, proj[1..], ElementShape(proj[0], t), env, k, length);
      }
    }
  }

  lemma WellTypedTail(proj: seq<ProjectionElem>, t: Shape)
    requires proj != [] && WellTyped(proj, t)
    ensures WellTyped([proj[0]], t) && WellTyped(proj[1..], ElementShape(proj[0], t))
    ensures SubsliceOnlyLast(proj) ==> SubsliceOnlyLast(proj[1..])
  {
    assert [proj[0]][1..] == [];
  }

  lemma ReachesIn(c: Cursor, x: ProjectionElem, env: Env, k: nat, e: nat)
    requires c.At? && OnArray(x) && (forall v :: env.index(v) == k) && Reaches(x, k, env.length(c.location), e)
    ensures StepIn(c, x, env)
    ensures var next := Advance(c, x, env);
            if next.Window? then next.base == c.location && next.lo <= e < next.hi
            else next.location == c.location + [Element(e)]
  {
  }

  /** One place ends at the deciding pair and the other goes on from the element both take. */
  lemma EndMeets(c: Cursor, x: ProjectionElem, b: seq<ProjectionElem>, t: Shape, env: Env, k: nat, e: nat, length: nat)
    returns (l: Location)
    requires c.At? && OnArray(x) && b != [] && OnArray(b[0]) && WellTyped(b, t) && SubsliceOnlyLast(b)
             && AllTake(b[1..])
    requires (forall v :: env.index(v) == k) && Roomy(env, k, |c.location| + 1, length)
    requires Reaches(x, k, env.length(c.location), e) && Reaches(b[0], k, env.length(c.location), e)
    requires forall y <- b :: Fits(y, k, length)
    ensures c.location <= l && Covers(Resolve(c, [x], env), l) && Covers(Resolve(c, b, env), l)
    ensures InBounds(c, [x], env) && InBounds(c, b, env)
  {
    hide Reaches, Fits;
    ReachesIn(c, x, env, k, e);
    ReachesIn(c, b[0], env, k, e);
    assert [x][1..] == [] && Resolve(c, [x], env) == Advance(c, x, env);
    var next := Advance(c, b[0], env);
    var at := c.location + [Element(e)];
    if next.Window? {
      assert b[1..] == [] && Resolve(c, b, env) == next;
      l := at;
      assert Covers(next, l);
    } else {
      WellTypedTail(b, t);
      l := RestCovers(next, b[1..], ElementShape(b[0], t), env, k, length);
    }
    assert at <= l;
    assert Covers(Advance(c, x, env), l);
  }

  /** The run: index locals hold k, the slice at depth n has one length and all others another. */
  ghost predicate Run(env: Env, k: nat, n: nat, special: nat, length: nat) {
    && (forall v :: env.index(v) == k)
    && (forall l: Location :: env.length(l) == if |l| == n then special else length)
  }

  lemma {:induction false} MeetInRun(c: Cursor, a: seq<ProjectionElem>, b: seq<ProjectionElem>, t: Shape, env: Env,
                                     k: nat, n: nat, special: nat, length: nat, e: nat)
    returns (l: Location)
    requires c.At? && WellTyped(a, t) && WellTyped(b, t) && SubsliceOnlyLast(a) && SubsliceOnlyLast(b)
    requires ProjectionsConflict(a, b) && EndsThere(a, b) && CanMeet(a, b)
    requires Run(env, k, n, special, length)
    requires (forall x <- a :: Fits(x, k, length)) && (forall x <- b :: Fits(x, k, length))
    requires if Decided(a, b)
             then && n == |c.location| + Depth(a, b)
                  && Reaches(Deciding(a, b).0, k, special, e) && Reaches(Deciding(a, b).1, k, special, e)
             else special == length
    ensures c.location <= l && Covers(Resolve(c, a, env), l) && Covers(Resolve(c, b, env), l)
    ensures InBounds(c, a, env) && InBounds(c, b, env)
    decreases |a|
  {
    hide Fits, Reaches, AllTake, CanReach;
    if a == [] {
      l := RestCovers(c, b, t, env, k, length);
    } else if b == [] {
      l := RestCovers(c, a, t, env, k, length);
    } else if Passes(a[0], b[0]) {
      PassedStep(c, a[0], b[0], env, k, length);
      TailsTyped(a, b, t);
      l := MeetInRun(Advance(c, a[0], env), a[1..], b[1..], ElementShape(a[0], t), env, k, n, special, length, e);
    } else {
      WellTypedHead(a, t);
      WellTypedHead(b, t);
      DecidesOnArrays(a[0], b[0], t);
      if |a| == 1 {
        assert a == [a[0]];
        l := EndMeets(c, a[0], b, t, env, k, e, length);
      } else {
        OtherEnds(a, b);
        assert b == [b[0]];
        l := EndMeets(c, b[0], a, t, env, k, e, length);
      }
    }
  }

  lemma PassedStep(c: Cursor, x: ProjectionElem, y: ProjectionElem, env: Env, k: nat, length: nat)
    requires c.At? && Passes(x, y) && (forall v :: env.index(v) == k) && env.length(c.location) == length
    requires Fits(x, k, length) && Fits(y, k, length)
    ensures StepIn(c, x, env) && StepIn(c, y, env) && Advance(c, x, env) == Advance(c, y, env)
    ensures var next := Advance(c, x, env);
            next.At? && |next.location| == |c.location| + 1 && c.location <= next.location
  {
  }

  lemma OtherEnds(a: seq<ProjectionElem>, b: seq<ProjectionElem>)
    requires |a| > 1 && b != [] && !Passes(a[0], b[0]) && ProjectionsConflict(a, b) && EndsThere(a, b)
    requires SubsliceOnlyLast(a) && SubsliceOnlyLast(b)
    ensures |b| == 1
  {
  }

  lemma {:induction false} DecidingMeets(a: seq<ProjectionElem>, b: seq<ProjectionElem>, t: Shape)
    requires WellTyped(a, t) && WellTyped(b, t) && SubsliceOnlyLast(a) && SubsliceOnlyLast(b)
    requires Decided(a, b) && CanMeet(a, b) && ProjectionsConflict(a, b)
    ensures var p := Deciding(a, b); OnArray(p.0) && OnArray(p.1) && CanReach(p.0, p.1)
    decreases |a|
  {
    hide CanReach, AllTake;
    if Passes(a[0], b[0]) {
      TailsTyped(a, b, t);
      DecidingMeets(a[1..], b[1..], ElementShape(a[0], t));
    } else {
      WellTypedHead(a, t);
      WellTypedHead(b, t);
      DecidesOnArrays(a[0], b[0], t);
    }
  }

  lemma MeetingOverlaps(a: Place, b: Place, t: Shape)
    requires a.local == b.local && WellTyped(a.projection, t) && WellTyped(b.projection, t)
    requires SubsliceOnlyLast(a.projection) && SubsliceOnlyLast(b.projection)
    requires PlacesConflict(a, b) && EndsThere(a.projection, b.projection) && CanMeet(a.projection, b.projection)
    ensures CanOverlap(a, b)
  {
    hide CanMeet, EndsThere, WellTyped, Decided, Depth, Deciding, ProjectionsConflict, Fits, Reaches;
    var pa, pb := a.projection, b.projection;
    var k, special, e, n := 0, 0, 0, 0;
    if Decided(pa, pb) {
      DecidingMeets(pa, pb, t);
      k, special, e := ReachTogether(Deciding(pa, pb).0, Deciding(pa, pb).1);
      n := Depth(pa, pb);
    }
    var length := Ample(pa, k) + Ample(pb, k);
    AmpleFits(pa, k, length);
    AmpleFits(pb, k, length);
    if !Decided(pa, pb) {
      special := length;
    }
    var env := Env(_ => k, l => if |l| == n then special else length);
    var l := MeetInRun(At([]), pa, pb, t, env, k, n, special, length, e);
    assert RegionHas(a, env, l) && RegionHas(b, env, l);
  }

  /**
  Places with subslices in last place only can overlap in some run just if the test says yes and
  their windows and offsets meet; and that is enough when one of them ends where the test gives up.
  */
  lemma ConflictExact(a: Place, b: Place, t: Shape)
    requires a.local == b.local && WellTyped(a.projection, t) && WellTyped(b.projection, t)
    requires SubsliceOnlyLast(a.projection) && SubsliceOnlyLast(b.projection)
    ensures CanOverlap(a, b) ==> PlacesConflict(a, b) && CanMeet(a.projection, b.projection)
    ensures EndsThere(a.projection, b.projection) ==>
              (CanOverlap(a, b) <==> PlacesConflict(a, b) && CanMeet(a.projection, b.projection))
  {
    hide CanMeet, EndsThere, WellTyped, InBounds;
    var pa, pb := a.projection, b.projection;
    if env, l :|
      InBounds(At([]), pa, env) && InBounds(At([]), pb, env) && RegionHas(a, env, l) && RegionHas(b, env, l) {
      if !PlacesConflict(a, b) {
        NoConflictIsDisjoint(a, b, t, env, l);
      }
      OverlapMeets(At([]), pa, pb, t, env, l);
    }
    if PlacesConflict(a, b) && EndsThere(pa, pb) && CanMeet(pa, pb) {
      MeetingOverlaps(a, b, t);
    }
  }

  // ----- where the test is exact -----

  /** No subslices, nothing counted from the end, and constant and variable indices do not mix. */
  predicate Plain(a: seq<ProjectionElem>, b: seq<ProjectionElem>) {
    && (forall x <- a + b :: !x.Subslice? && !(x.ConstantIndex? && x.fromEnd))
    && ((forall x <- a + b :: !x.Index?) || (forall x <- a + b :: !x.ConstantIndex?))
  }

  /** On such places the test needs no condition: it is exact. */
  lemma {:induction false} PlainExact(a: seq<ProjectionElem>, b: seq<ProjectionElem>, t: Shape)
    requires WellTyped(a, t) && WellTyped(b, t) && Plain(a, b) && ProjectionsConflict(a, b)
    ensures EndsThere(a, b) && CanMeet(a, b)
    decreases |a|
  {
    assert forall x :: x in a || x in b ==> x in a + b;
    if a != [] && b != [] {
      assert a[0] in a + b && b[0] in a + b;
      assert Passes(a[0], b[0]);
      assert forall x :: x in a[1..] + b[1..] ==> x in a + b;
      TailsTypedAlike(a, b, t);
      PlainExact(a[1..], b[1..], ElementShape(a[0], t));
    }
  }
}
