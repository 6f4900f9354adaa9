/**
Change detection: the state places a slot reads, the places a handler writes, and when the two
interfere (crates/glyim-gsx/src/analysis.rs).
*/
module Reactivity {
  import opened GsxExpr
  import opened Wrappers

  datatype PlaceStep = FieldStep(field: string) | IndexStep

  type Steps = seq<PlaceStep>

  /** A path below the state parameter. */
  datatype Place = Place(steps: Steps, indexed: bool, subtree: bool)

  function Root(): Place {
    Place([], false, true)
  }

  function FieldOf(p: Place, name: string): Place {
    Place(p.steps + [FieldStep(name)], p.indexed, false)
  }

  function IndexOf(p: Place): Place {
    Place(p.steps + [IndexStep], true, false)
  }

  // ----- interference -----

  /** One path is a prefix of the other. */
  predicate Overlap(a: Steps, b: Steps) {
    a <= b || b <= a
  }

  method Interferes(a: Place, b: Place) returns (r: bool)
    ensures r == Overlap(a.steps, b.steps)
  {
    var n := if |a.steps| < |b.steps| then |a.steps| else |b.steps|;
    for k := 0 to n
      invariant a.steps[..k] == b.steps[..k]
    {
      if a.steps[k] != b.steps[k] {
        return false;
      }
    }
    r := true;
  }

  predicate AnyInterference(read: set<Place>, written: set<Place>) {
    exists r, w :: r in read && w in written && Overlap(r.steps, w.steps)
  }

  // ----- names the analysis knows -----

  predicate SafeRead(name: string) {
    name in ["iter", "len", "get", "contains"]
  }

  predicate MutatingCall(name: string) {
    name in ["push", "insert", "remove", "swap", "sort", "clear", "truncate", "pop"]
  }

  predicate MutatingMethod(name: string) {
    MutatingCall(name) || name in ["set", "borrow_mut", "replace", "take"]
  }

  /** The place an expression spells out, when it is a path from the state parameter. */
  function ArgPlace(e: Expr, param: string): Option<Place> {
    match e
    case Var(x) => if x == param then Some(Root()) else None
    case Field(b, name) => (var p := ArgPlace(b, param); if p.Some? then Some(FieldOf(p.value, name)) else None)
    case Index(b, _) => (var p := ArgPlace(b, param); if p.Some? then Some(IndexOf(p.value)) else None)
    case _ => None
  }

  // ----- reads -----

  function CollectReads(e: Expr, param: string, acc: set<Place>): set<Place>
    decreases e, 0
  {
    match e
    case Var(x) => if x == param then acc + {Root()} else acc
    case Lit(_) => acc
    case Field(b, name) =>
      var (place, found) := PlaceOf(b, param, acc);
      found + {FieldOf(place, name)}
    case Index(b, i) =>
      var (place, found) := PlaceOf(b, param, CollectReads(i, param, acc));
      found + {IndexOf(place)}
    case Call(name, args) =>
      if name == "trusted" then CollectAllReads(args, param, acc) else CollectArgReads(args, param, acc)
    case Method(recv, name, args) =>
      var (place, found) := PlaceOf(recv, param, acc);
      CollectAllReads(args, param, if SafeRead(name) then found else found + {place.(subtree := true)})
    case Closure(_, body) => CollectReads(body, param, acc)
    case Unary(_, inner) => CollectReads(inner, param, acc)
    case Binary(_, l, r) => CollectReads(r, param, CollectReads(l, param, acc))
    case Assign(lhs, op, rhs) => CollectReads(rhs, param, if op.Some? then CollectReads(lhs, param, acc) else acc)
    case If(cond, thn, els) =>
      CollectMaybeReads(els, param, CollectReads(thn, param, CollectReads(cond, param, acc)))
    case Match(scrutinee, arms) => CollectArmReads(arms, param, CollectReads(scrutinee, param, acc))
    case For(_, iter, key, body) =>
      CollectReads(body, param, CollectMaybeReads(key, param, CollectReads(iter, param, acc)))
    case Block(stmts, tail) => CollectMaybeReads(tail, param, CollectAllReads(stmts, param, acc))
    case Let(_, init) => CollectReads(init, param, acc)
    case Flow => acc
    case Opaque(_) => acc
    case Gsx => acc
  }

  function CollectMaybeReads(e: Option<Expr>, param: string, acc: set<Place>): set<Place>
    decreases e, 1
  {
    if e.Some? then CollectReads(e.value, param, acc) else acc
  }

  function CollectAllReads(es: seq<Expr>, param: string, acc: set<Place>): set<Place>
    decreases es, 1
  {
    if es == [] then acc else CollectAllReads(es[1..], param, CollectReads(es[0], param, acc))
  }

  function CollectArmReads(arms: seq<MatchArm>, param: string, acc: set<Place>): set<Place>
    decreases arms, 1
  {
    if arms == [] then acc
    else CollectArmReads(arms[1..], param,
                         CollectReads(arms[0].body, param, CollectMaybeReads(arms[0].guard, param, acc)))
  }

  /** Arguments of an opaque call: a place among them is read with everything below it. */
  function CollectArgReads(es: seq<Expr>, param: string, acc: set<Place>): set<Place>
    decreases es, 1
  {
    if es == [] then acc
    else
      var found, p := CollectReads(es[0], param, acc), ArgPlace(es[0], param);
      var found2 := if p.None? then found else (found - {p.value.(subtree := false)}) + {p.value.(subtree := true)};
      CollectArgReads(es[1..], param, found2)
  }

  function PlaceOf(e: Expr, param: string, acc: set<Place>): (Place, set<Place>)
    decreases e, 1
  {
    match e
    case Var(x) => (if x == param then Root() else Place([FieldStep(x)], false, false), acc)
    case Field(b, name) =>
      var (place, found) := PlaceOf(b, param, acc);
      (FieldOf(place, name), found)
    case Index(b, i) =>
      var (place, found) := PlaceOf(b, param, CollectReads(i, param, acc));
      (IndexOf(place), found)
    case _ => (Place([FieldStep("")], false, true), CollectReads(e, param, acc))
  }

  function ReadSet(e: Expr, param: string): set<Place> {
    CollectReads(e, param, {})
  }

  // ----- writes -----

  function CollectWrites(e: Expr, param: string, acc: set<Place>): set<Place>
    decreases e, 0
  {
    match e
    case Assign(lhs, _, rhs) =>
      var p := ArgPlace(lhs, param);
      var writes := if p.Some? then acc + {p.value} else if lhs.Var? then acc else acc + {Root()};
      CollectWrites(rhs, param, writes)
    case Call(name, args) =>
      CollectAllWrites(args, param, if MutatingCall(name) then acc + ArgPlaces(args, param) else acc)
    case Method(recv, name, args) =>
      var p := ArgPlace(recv, param);
      CollectAllWrites(args, param, if MutatingMethod(name) && p.Some? then acc + {p.value.(subtree := true)} else acc)
    case Closure(_, body) => CollectWrites(body, param, acc)
    case Unary(_, inner) => CollectWrites(inner, param, acc)
    case Binary(_, l, r) => CollectWrites(r, param, CollectWrites(l, param, acc))
    case If(cond, thn, els) =>
      CollectMaybeWrites(els, param, CollectWrites(thn, param, CollectWrites(cond, param, acc)))
    case Match(scrutinee, arms) => CollectArmWrites(arms, param, CollectWrites(scrutinee, param, acc))
    case For(_, iter, key, body) =>
      CollectWrites(body, param, CollectMaybeWrites(key, param, CollectWrites(iter, param, acc)))
    case Block(stmts, tail) => CollectMaybeWrites(tail, param, CollectAllWrites(stmts, param, acc))
    case Let(_, init) => CollectWrites(init, param, acc)
    case Var(_) => acc
    case Lit(_) => acc
    case Field(_, _) => acc
    case Index(_, _) => acc
    case Flow => acc
    case Opaque(_) => acc
    case Gsx => acc
  }

  function CollectMaybeWrites(e: Option<Expr>, param: string, acc: set<Place>): set<Place>
    decreases e, 1
  {
    if e.Some? then CollectWrites(e.value, param, acc) else acc
  }

  function CollectAllWrites(es: seq<Expr>, param: string, acc: set<Place>): set<Place>
    decreases es, 1
  {
    if es == [] then acc else CollectAllWrites(es[1..], param, CollectWrites(es[0], param, acc))
  }

  function CollectArmWrites(arms: seq<MatchArm>, param: string, acc: set<Place>): set<Place>
    decreases arms, 1
  {
    if arms == [] then acc
    else
      CollectArmWrites(arms[1..], param,
                       CollectWrites(arms[0].body, param, CollectMaybeWrites(arms[0].guard, param, acc)))
  }

  function ArgPlaces(es: seq<Expr>, param: string): set<Place> {
    if es == [] then {}
    else
      var p := ArgPlace(es[0], param);
      (if p.Some? then {p.value.(subtree := true)} else {}) + ArgPlaces(es[1..], param)
  }

  function WriteSet(e: Expr, param: string): set<Place> {
    CollectWrites(e, param, {})
  }
}
