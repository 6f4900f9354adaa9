/**
Where whole places land once offsets are counted from the start of the slice and not of the windows
passed, and when the overlap test is wrong to say no (crates/glyim-borrowck/src/visitor.rs, places_conflict).
*/
module PlacesNormal {
  import opened Mir
  import opened Places

  // ----- regions that meet -----

  predicate InsideWindow(at: Location, base: Location, lo: int, hi: int) {
    base < at && at[|base|].Element? && lo <= at[|base|].index < hi
  }

  /** A test on the two places as resolved: prefixes, elements in windows, and windows that intersect. */
  predicate CursorsMeet(a: Cursor, b: Cursor) {
    match (a, b)
    case (At(p), At(q)) => p <= q || q <= p
    case (At(p), Window(base, lo, hi)) => lo < hi && (p <= base || InsideWindow(p, base, lo, hi))
    case (Window(base, lo, hi), At(q)) => lo < hi && (q <= base || InsideWindow(q, base, lo, hi))
    case (Window(p, l1, h1), Window(q, l2, h2)) =>
      && l1 < h1 && l2 < h2
      && ((p == q && l1 < h2 && l2 < h1) || InsideWindow(p, q, l2, h2) || InsideWindow(q, p, l1, h1))
  }

  lemma Comparable(p: Location, q: Location, l: Location)
    requires p <= l && q <= l
    ensures p <= q || q <= p
  {
    assert forall k :: 0 <= k < |p| ==> p[k] == l[k];
    assert forall k :: 0 <= k < |q| ==> q[k] == l[k];
  }

  /** The element of a window through which a location goes. */
  lemma ThroughWindow(base: Location, lo: int, hi: int, l: Location)
    ensures Covers(Window(base, lo, hi), l) <==> InsideWindow(l, base, lo, hi)
  {
    if Covers(Window(base, lo, hi), l) {
      var e: int :| lo <= e < hi && base + [Element(e)] <= l;
      assert l[|base|] == Element(e);
      assert base == (base + [Element(e)])[..|base|] == l[..|base|];
    }
    if InsideWindow(l, base, lo, hi) {
      var e := l[|base|].index;
      assert base + [Element(e)] == l[..|base| + 1];
    }
  }

  lemma WindowAndLocation(p: Location, base: Location, lo: int, hi: int)
    ensures (exists l :: p <= l && Covers(Window(base, lo, hi), l)) <==>
            lo < hi && (p <= base || InsideWindow(p, base, lo, hi))
  {
    if l :| p <= l && Covers(Window(base, lo, hi), l) {
      ThroughWindow(base, lo, hi, l);
      Comparable(p, base, l);
    }
    if lo < hi && p <= base {
      assert Covers(Window(base, lo, hi), base + [Element(lo)]);
    }
    if lo < hi && InsideWindow(p, base, lo, hi) {
      ThroughWindow(base, lo, hi, p);
    }
  }

  lemma TwoWindows(p: Location, l1: int, h1: int, q: Location, l2: int, h2: int)
    ensures (exists l :: Covers(Window(p, l1, h1), l) && Covers(Window(q, l2, h2), l)) <==>
            CursorsMeet(Window(p, l1, h1), Window(q, l2, h2))
  {
    var a, b := Window(p, l1, h1), Window(q, l2, h2);
    if l :| Covers(a, l) && Covers(b, l) {
      ThroughWindow(p, l1, h1, l);
      ThroughWindow(q, l2, h2, l);
      Comparable(p, q, l);
    }
    if CursorsMeet(a, b) {
      var l := WindowsShare(p, l1, h1, q, l2, h2);
      ThroughWindow(p, l1, h1, l);
      ThroughWindow(q, l2, h2, l);
    }
  }

  lemma WindowsShare(p: Location, l1: int, h1: int, q: Location, l2: int, h2: int) returns (l: Location)
    requires CursorsMeet(Window(p, l1, h1), Window(q, l2, h2))
    ensures InsideWindow(l, p, l1, h1) && InsideWindow(l, q, l2, h2)
  {
    if p == q {
      l := p + [Element(if l1 < l2 then l2 else l1)];
    } else if InsideWindow(p, q, l2, h2) {
      l := p + [Element(l1)];
    } else {
      l := q + [Element(l2)];
    }
  }

  lemma MeetsExact(a: Cursor, b: Cursor)
    ensures (exists l :: Covers(a, l) && Covers(b, l)) <==> CursorsMeet(a, b)
  {
    hide InsideWindow;
    if a.Window? && b.Window? {
      TwoWindows(a.base, a.lo, a.hi, b.base, b.lo, b.hi);
    } else if a.Window? {
      WindowAndLocation(b.location, a.base, a.lo, a.hi);
    } else if b.Window? {
      WindowAndLocation(a.location, b.base, b.lo, b.hi);
    } else {
      if l :| Covers(a, l) && Covers(b, l) {
        Comparable(a.location, b.location, l);
      }
      if CursorsMeet(a, b) {
        var l := if a.location <= b.location then b.location else a.location;
        assert Covers(a, l) && Covers(b, l);
      }
    }
  }

  // ----- places that land where they are written -----

  /** Nothing depends on an index local or a length. */
  predicate Settled(proj: seq<ProjectionElem>) {
    forall x <- proj :: !x.Index? && !(x.ConstantIndex? && x.fromEnd) && !(x.Subslice? && x.sliceFromEnd)
  }

  /** A step of such a place; an offset counts from the start of the window it stands in. */
  function Shift(c: Cursor, x: ProjectionElem): Cursor {
    match x
    case Deref => At(Base(c) + [Follow])
    case Field(f) => At(Base(c) + [Member(f)])
    case Downcast(v) => At(Base(c) + [Payload(v)])
    case ConstantIndex(o, _) => At(Base(c) + [Element(Low(c) + o)])
    case Subslice(from, to, _) => Window(Base(c), Low(c) + from, Low(c) + to)
    case Index(_) => c
  }

  function Landing(c: Cursor, proj: seq<ProjectionElem>): Cursor
    decreases |proj|
  {
    if proj == [] then c else Landing(Shift(c, proj[0]), proj[1..])
  }

  lemma {:induction false} LandsThere(c: Cursor, proj: seq<ProjectionElem>, env: Env)
    requires Settled(proj)
    ensures Resolve(c, proj, env) == Landing(c, proj)
    decreases |proj|
  {
    if proj != [] {
      assert proj[0] in proj && Settled(proj[1..]);
      LandsThere(Shift(c, proj[0]), proj[1..], env);
    }
  }

  /** Two places share a location in a run exactly when they meet as resolved with the run's values. */
  lemma MeetResolved(a: Place, b: Place, env: Env)
    ensures Meet(a, b, env) <==> CursorsMeet(Resolve(At([]), a.projection, env), Resolve(At([]), b.projection, env))
  {
    hide CursorsMeet, Covers, Resolve;
    var ca, cb := Resolve(At([]), a.projection, env), Resolve(At([]), b.projection, env);
    MeetsExact(ca, cb);
    if l :| Covers(ca, l) && Covers(cb, l) {
      assert RegionHas(a, env, l) && RegionHas(b, env, l);
    }
  }

  /**
  Whole places without index locals and with nothing counted from the end, subslices anywhere: they
  share a location, in every run alike, exactly when their landings meet. So the test is wrong to say
  no exactly on those of its noes where the landings meet.
  */
  lemma SettledExact(a: Place, b: Place, env: Env)
    requires a.local == b.local && Settled(a.projection) && Settled(b.projection)
    ensures Meet(a, b, env) <==> CursorsMeet(Landing(At([]), a.projection), Landing(At([]), b.projection))
  {
    hide CursorsMeet;
    LandsThere(At([]), a.projection, env);
    LandsThere(At([]), b.projection, env);
    MeetResolved(a, b, env);
  }
}
