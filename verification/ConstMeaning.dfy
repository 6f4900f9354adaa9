/**
A meaning for constant expressions on mathematical integers and truth values, told without the
evaluator, and agreement of the evaluator with it (crates/glyim-const-eval/src/eval.rs).
*/
module ConstMeaning {
  import opened ConstEval
  import opened ConstValue
  import opened Wrappers
  import B = BitLaws
  import N = Int64

  // ----- what values stand for -----

  datatype NumTy = SignedTy(ity: IntTy) | UnsignedTy(uty: UintTy)

  /** Aggregates have parts, a span the numbers between two bounds; `Other` is a value not looked into. */
  datatype Thing =
    | Num(n: int, ty: NumTy)
    | Truth(b: bool)
    | Nil
    | Items(parts: seq<Thing>, isTuple: bool)
    | Fields(named: seq<NamedThing>)
    | Between(low: int, high: int, ty: NumTy, inclusive: bool)
    | Other(value: Value)

  datatype NamedThing = NamedThing(name: Name, thing: Thing)

  function ThingOf(v: Value): Thing {
    match v
    case IntV(i, t) => Num(i, SignedTy(t))
    case UintV(u, t) => Num(u, UnsignedTy(t))
    case BoolV(b) => Truth(b)
    case UnitV => Nil
    case TupleV(elems) => Items(ThingsOf(elems), true)
    case ArrayV(elems) => Items(ThingsOf(elems), false)
    case StructV(fields) => Fields(NamedOf(fields))
    case RangeV(Some(IntV(a, t)), Some(IntV(b, u)), inclusive) =>
      if t == u then Between(a, b, SignedTy(t), inclusive) else Other(v)
    case RangeV(Some(UintV(a, t)), Some(UintV(b, u)), inclusive) =>
      if t == u then Between(a, b, UnsignedTy(t), inclusive) else Other(v)
    case _ => Other(v)
  }

  function ThingsOf(vs: seq<Value>): (r: seq<Thing>)
    ensures |r| == |vs| && forall k :: 0 <= k < |vs| ==> r[k] == ThingOf(vs[k])
  {
    seq(|vs|, k requires 0 <= k < |vs| => ThingOf(vs[k]))
  }

  function NamedOne(f: FieldValue): NamedThing {
    NamedThing(f.name, ThingOf(f.value))
  }

  function NamedOf(fields: seq<FieldValue>): (r: seq<NamedThing>)
    ensures |r| == |fields| && forall k :: 0 <= k < |fields| ==> r[k] == NamedOne(fields[k])
  {
    seq(|fields|, k requires 0 <= k < |fields| => NamedOne(fields[k]))
  }

  /** Names in scope, innermost scope last. */
  type Scopes = seq<map<Name, Thing>>

  function ScopeOfThings(scope: map<Name, Value>): map<Name, Thing> {
    map name | name in scope :: ThingOf(scope[name])
  }

  function ScopesOf(env: Env): (r: Scopes)
    ensures |r| == |env|
  {
    seq(|env|, i requires 0 <= i < |env| => ScopeOfThings(env[i]))
  }

  ghost predicate Innermost(scopes: Scopes, name: Name, k: nat) {
    k < |scopes| && name in scopes[k] && forall j :: k < j < |scopes| ==> name !in scopes[j]
  }

  // ----- numbers -----

  /** The quotient rounded toward zero. */
  function Quot(a: int, b: int): int
    requires b != 0
  {
    if a >= 0 && b > 0 then a / b
    else if a >= 0 then -(a / -b)
    else if b > 0 then -(-a / b)
    else -a / -b
  }

  function Computed(op: ArithOp, a: int, b: int): Option<int> {
    match op
    case Add => Some(a + b)
    case Sub => Some(a - b)
    case Mul => Some(a * b)
    case Div => if b == 0 then None else Some(Quot(a, b))
    case Rem => if b == 0 then None else Some(a - b * Quot(a, b))
  }

  /** Whether a type has the number. */
  predicate Holds(t: NumTy, n: int, pointerWidth: nat) {
    match t
    case SignedTy(I8) => -0x80 <= n < 0x80
    case UnsignedTy(U8) => 0 <= n < 0x100
    case SignedTy(I16) => -0x8000 <= n < 0x8000
    case UnsignedTy(U16) => 0 <= n < 0x1_0000
    case SignedTy(I32) => -0x8000_0000 <= n < 0x8000_0000
    case UnsignedTy(U32) => 0 <= n < 0x1_0000_0000
    case SignedTy(I64) => -0x8000_0000_0000_0000 <= n < 0x8000_0000_0000_0000
    case UnsignedTy(U64) => 0 <= n < 0x1_0000_0000_0000_0000
    case SignedTy(Isize) =>
      if pointerWidth == 64 then -0x8000_0000_0000_0000 <= n < 0x8000_0000_0000_0000
      else -0x8000_0000 <= n < 0x8000_0000
    case UnsignedTy(Usize) =>
      if pointerWidth == 64 then 0 <= n < 0x1_0000_0000_0000_0000 else 0 <= n < 0x1_0000_0000
  }

  predicate SameSign(x: Thing, y: Thing) {
    x.Num? && y.Num? && (x.ty.SignedTy? == y.ty.SignedTy?)
  }

  /** How many numbers a type that can be cast to has; 0 for the others. */
  function Count(t: NumTy): nat {
    match t
    case SignedTy(I8) => 0x100
    case UnsignedTy(U8) => 0x100
    case SignedTy(I16) => 0x1_0000
    case UnsignedTy(U16) => 0x1_0000
    case SignedTy(I32) => 0x1_0000_0000
    case UnsignedTy(U32) => 0x1_0000_0000
    case SignedTy(I64) => 0x1_0000_0000_0000_0000
    case UnsignedTy(U64) => 0x1_0000_0000_0000_0000
    case _ => 0
  }

  /** The number of that type that is congruent to n modulo the size of the type. */
  function Cut(n: int, t: NumTy): int
    requires Count(t) > 0
  {
    var m := n % Count(t);
    if t.SignedTy? && m >= Count(t) / 2 then m - Count(t) else m
  }

  // ----- meanings -----

  /**
  `Off`: outside this meaning, because of a construct it does not cover, a `let` that binds anew a name
  of an enclosing scope, operands that no typed program has, or a `break`, `continue` or `return` with
  something left to do before the loop or function it leaves is reached. `Stuck`: an error.
  */
  datatype Meaning =
    | Gives(thing: Thing, scopes: Scopes)
    | Leaves(exit: Exit, thing: Thing, scopes: Scopes)
    | Off
    | Stuck

  datatype Exit = ByBreak | ByContinue | ByReturn

  /** Where there is more to do with the value. */
  function Halts(m: Meaning): Meaning {
    if m.Gives? || m.Leaves? then Off else m
  }

  /** What the body of a loop leads to: another turn, or the end of the loop. */
  datatype Turn = GoOn(scopes: Scopes) | Ends(loop: Meaning)

  function AfterTurn(m: Meaning): Turn {
    match m
    case Gives(_, s) => GoOn(s)
    case Leaves(ByContinue, _, s) => GoOn(s)
    case Leaves(ByBreak, _, s) => Ends(Gives(Nil, s))
    case other => Ends(Halts(other))
  }

  function Literally(l: Lit): Thing {
    match l
    case LInt(i, t) => Num(i, SignedTy(if t.Some? then t.value else I32))
    case LUint(u, t) => Num(u, UnsignedTy(if t.Some? then t.value else U32))
    case LBool(b) => Truth(b)
    case LUnit => Nil
    case _ => Other(LitValue(l))
  }

  datatype Answer = Is(thing: Thing) | Unclear | Wrong

  /**
  The order and equality of numbers, the connectives of truth values, and arithmetic as it is where the type
  has the result.
  */
  function Operate(op: BinOp, x: Thing, y: Thing, pointerWidth: nat): Answer {
    match op
    case Arith(a) =>
      if !(x.Num? && y.Num? && x.ty == y.ty && x.n > -0x8000_0000_0000_0000_0000_0000_0000_0000) then Unclear
      else
        var r := Computed(a, x.n, y.n);
        if r.Some? && Holds(x.ty, r.value, pointerWidth) then Is(Num(r.value, x.ty)) else Wrong
    case Eq =>
      if SameSign(x, y) then Is(Truth(x.n == y.n))
      else if x.Truth? && y.Truth? then Is(Truth(x.b <==> y.b))
      else Unclear
    case Ne =>
      if SameSign(x, y) then Is(Truth(x.n != y.n))
      else if x.Truth? && y.Truth? then Is(Truth(!(x.b <==> y.b)))
      else Unclear
    case Lt => if SameSign(x, y) then Is(Truth(x.n < y.n)) else Unclear
    case Gt => if SameSign(x, y) then Is(Truth(x.n > y.n)) else Unclear
    case LtEq => if SameSign(x, y) then Is(Truth(x.n <= y.n)) else Unclear
    case GtEq => if SameSign(x, y) then Is(Truth(x.n >= y.n)) else Unclear
    case And => if x.Truth? && (y.Truth? || !x.b) then Is(Truth(x.b && y == Truth(true))) else Unclear
    case Or => if x.Truth? && (y.Truth? || x.b) then Is(Truth(x.b || y == Truth(true))) else Unclear
    case Bitwise(_) => Unclear
  }

  function Invert(op: UnOp, x: Thing, pointerWidth: nat): Answer {
    if op == Not && x.Truth? then Is(Truth(!x.b))
    else if op == Neg && x.Num? then
      if x.ty.SignedTy? && Holds(x.ty, -x.n, pointerWidth) then Is(Num(-x.n, x.ty)) else Wrong
    else Unclear
  }

  function Convert(x: Thing, t: CastTarget): Answer {
    var ty := if t.ToInt? then SignedTy(t.ity) else if t.ToUint? then UnsignedTy(t.uty) else SignedTy(Isize);
    if x.Num? && Count(ty) > 0 then Is(Num(Cut(x.n, ty), ty)) else Unclear
  }

  function Conclude(a: Answer, scopes: Scopes): Meaning {
    match a
    case Is(x) => Gives(x, scopes)
    case Unclear => Off
    case Wrong => Stuck
  }

  function With(scope: map<Name, Thing>, name: Name, x: Thing): map<Name, Thing> {
    scope[name := x]
  }

  /** In the innermost scope. */
  function Declare(scopes: Scopes, name: Name, x: Thing): Scopes {
    if scopes == [] then scopes else scopes[|scopes| - 1 := With(scopes[|scopes| - 1], name, x)]
  }

  /** A name bound in an enclosing scope, not in the innermost. */
  ghost predicate BoundOutside(scopes: Scopes, name: Name) {
    exists k: nat :: Innermost(scopes, name, k) && k < |scopes| - 1
  }

  datatype Acceptance = Yes(scopes: Scopes) | No | CannotTell

  /**
  A literal stands for the equal value of the same type, a range for the numbers between its literals, a
  pattern with parts for values with as many parts that fit; of alternatives the first that fits binds.
  */
  function Accepts(pat: Pat, x: Thing, scopes: Scopes): Acceptance
    decreases pat, 0
  {
    match pat
    case PWild => Yes(scopes)
    case PBinding(name) => Yes(Declare(scopes, name, x))
    case PLiteral(l) =>
      var y := Literally(l);
      if x.Num? && y.Num? && x.ty == y.ty then if x.n == y.n then Yes(scopes) else No
      else if x.Truth? && y.Truth? then if x.b == y.b then Yes(scopes) else No
      else CannotTell
    case PRange(Some(a), Some(b), inclusive) =>
      var y, z := Literally(a), Literally(b);
      if SameSign(x, y) && SameSign(x, z) then
        if y.n <= x.n && (x.n < z.n || (inclusive && x.n == z.n)) then Yes(scopes) else No
      else CannotTell
    case PTuple(parts) =>
      if x.Items? && x.isTuple then
        if |parts| == |x.parts| then AcceptsAll(parts, x.parts, scopes) else No
      else CannotTell
    case PSlice(parts) =>
      if x.Items? && !x.isTuple then
        if |parts| == |x.parts| then AcceptsAll(parts, x.parts, scopes) else No
      else CannotTell
    case POr(alts) => AcceptsAny(alts, x, scopes)
    case _ => CannotTell
  }

  /** Whether all fit; not told when a part does not fit after another has bound names. */
  function AcceptsAll(pats: seq<Pat>, xs: seq<Thing>, scopes: Scopes): Acceptance
    requires |pats| == |xs|
    decreases pats, 1
  {
    if pats == [] then Yes(scopes)
    else
      match Accepts(pats[0], xs[0], scopes)
      case Yes(s1) =>
        (match AcceptsAll(pats[1..], xs[1..], s1)
         case Yes(s2) => Yes(s2)
         case No => if s1 == scopes then No else CannotTell
         case CannotTell => CannotTell)
      case No => No
      case CannotTell => CannotTell
  }

  function AcceptsAny(alts: seq<Pat>, x: Thing, scopes: Scopes): Acceptance
    decreases alts, 1
  {
    if alts == [] then No
    else
      match Accepts(alts[0], x, scopes)
      case Yes(s1) => Yes(s1)
      case No => AcceptsAny(alts[1..], x, scopes)
      case CannotTell => CannotTell
  }

  // ----- parts -----

  /** The part a number picks, counted from 0; numbers beyond all machine words are not told. */
  function PartAt(x: Thing, k: Thing): Answer {
    if !(x.Items? && k.Num?) then Unclear
    else if !(-0x8000_0000_0000_0000 <= k.n < 0x1_0000_0000_0000_0000) then Unclear
    else if 0 <= k.n < |x.parts| then Is(x.parts[k.n])
    else Wrong
  }

  /** The first field of that name. */
  ghost function Member(x: Thing, name: Name): Answer {
    if !x.Fields? then Unclear
    else if exists k :: FirstNamed(x.named, name, k) then
      var k :| FirstNamed(x.named, name, k);
      Is(x.named[k].thing)
    else Wrong
  }

  predicate FirstNamed(named: seq<NamedThing>, name: Name, k: int) {
    0 <= k < |named| && named[k].name == name && forall j :: 0 <= j < k ==> named[j].name != name
  }

  /** What a loop goes through: the parts, or the numbers from the lower bound on, in order. */
  function Turns(x: Thing): Option<seq<Thing>> {
    match x
    case Items(parts, _) => Some(parts)
    case Between(low, high, ty, inclusive) =>
      var n := (if inclusive then high + 1 else high) - low;
      if !Countable(low, ty) || !Countable(high, ty) || n > 1_000_000 then None
      else Some(seq(if n < 0 then 0 else n, k => Num(low + k, ty)))
    case _ => None
  }

  predicate Countable(n: int, ty: NumTy) {
    && (ty.SignedTy? || n >= 0)
    && -0x8000_0000_0000_0000_0000_0000_0000_0000 <= n < 0x7FFF_FFFF_FFFF_FFFF_FFFF_FFFF_FFFF_FFFF
  }

  /** Both bounds, of one type. */
  function Bounded(x: Thing, y: Thing, inclusive: bool): Answer {
    if x.Num? && y.Num? && x.ty == y.ty then Is(Between(x.n, y.n, x.ty, inclusive)) else Unclear
  }

  /** `AllLeave`: by the last of them. */
  datatype Meanings =
    | GiveAll(things: seq<Thing>, scopes: Scopes)
    | AllLeave(exit: Exit, scopes: Scopes)
    | AllOff
    | AllStuck

  function AsOne(m: Meanings, x: seq<Thing> -> Thing): Meaning {
    match m
    case GiveAll(xs, s1) => Gives(x(xs), s1)
    case AllStuck => Stuck
    case _ => Off
  }

  ghost function Means(p: Program, id: Id, depth: nat, scopes: Scopes): Meaning
    decreases depth, 1, 0
  {
    if depth == 0 then Stuck
    else
      match At(p, id)
      case Literal(l) => if Literally(l).Other? then Off else Gives(Literally(l), scopes)
      case Binary(op, lhs, rhs) =>
        (match Means(p, lhs, depth - 1, scopes)
         case Gives(x, s1) =>
           (match Means(p, rhs, depth - 1, s1)
            case Gives(y, s2) => Conclude(Operate(op, x, y, p.pointerWidth), s2)
            case other => Halts(other))
         case other => Halts(other))
      case Unary(op, operand) =>
        (match Means(p, operand, depth - 1, scopes)
         case Gives(x, s1) => Conclude(Invert(op, x, p.pointerWidth), s1)
         case other => Halts(other))
      case Cast(operand, t) =>
        (match Means(p, operand, depth - 1, scopes)
         case Gives(x, s1) => Conclude(Convert(x, t), s1)
         case other => Halts(other))
      case Path(segments) => if |segments| == 1 then NameMeans(p, segments[0], scopes) else Off
      case If(cond, thn, els) =>
        (match Means(p, cond, depth - 1, scopes)
         case Gives(x, s1) =>
           if x == Truth(true) then Means(p, thn, depth - 1, s1)
           else if x == Truth(false) then
             if els.Some? then Means(p, els.value, depth - 1, s1) else Gives(Nil, s1)
           else Stuck
         case other => Halts(other))
      case Match(scrutinee, arms) =>
        (match Means(p, scrutinee, depth - 1, scopes)
         case Gives(x, s1) => ArmsMean(p, arms, x, depth - 1, s1)
         case other => Halts(other))
      case Block(stmts, tail) => BlockMeans(p, stmts, tail, depth - 1, scopes + [map[]])
      case Let(pat, init) =>
        (match Means(p, init, depth - 1, scopes)
         case Gives(x, s1) =>
           if pat.PBinding? && !BoundOutside(s1, pat.name) then Gives(Nil, Declare(s1, pat.name, x)) else Off
         case other => Halts(other))
      case Assign(lhs, rhs) =>
        (match Means(p, rhs, depth - 1, scopes)
         case Gives(x, s1) => AssignMeans(At(p, lhs), x, s1)
         case other => Halts(other))
      case While(cond, body) => LoopMeans(p, cond, body, MAX_ITERS, depth - 1, scopes)
      case Tuple(elems) =>
        if elems == [] then Gives(Nil, scopes)
        else AsOne(AllMean(p, elems, depth - 1, scopes), xs => Items(xs, true))
      case Array(elems) => AsOne(AllMean(p, elems, depth - 1, scopes), xs => Items(xs, false))
      case Struct(inits) => AsOne(AllMean(p, Initialisers(inits), depth - 1, scopes), xs => Fields(Labelled(inits, xs)))
      case Index(base, k) =>
        (match Means(p, base, depth - 1, scopes)
         case Gives(x, s1) =>
           (match Means(p, k, depth - 1, s1)
            case Gives(y, s2) => Conclude(PartAt(x, y), s2)
            case other => Halts(other))
         case other => Halts(other))
      case Field(recv, name) =>
        (match Means(p, recv, depth - 1, scopes)
         case Gives(x, s1) => Conclude(Member(x, name), s1)
         case other => Halts(other))
      case Range(Some(a), Some(b), inclusive) =>
        (match Means(p, a, depth - 1, scopes)
         case Gives(x, s1) =>
           (match Means(p, b, depth - 1, s1)
            case Gives(y, s2) => Conclude(Bounded(x, y, inclusive), s2)
            case other => Halts(other))
         case other => Halts(other))
      case For(pat, iterable, body) =>
        (match Means(p, iterable, depth - 1, scopes)
         case Gives(x, s1) =>
           if Turns(x).Some? then TurnsMean(p, pat, Turns(x).value, body, depth - 1, s1) else Off
         case other => Halts(other))
      case Call(f, args) => CallMeans(p, At(p, f), args, depth - 1, scopes)
      case Ref(operand) => Means(p, operand, depth - 1, scopes)
      case Break => Leaves(ByBreak, Nil, scopes)
      case Continue => Leaves(ByContinue, Nil, scopes)
      case Return(value) =>
        if value.None? then Leaves(ByReturn, Nil, scopes)
        else
          (match Means(p, value.value, depth - 1, scopes)
           case Gives(x, s1) => Leaves(ByReturn, x, s1)
           case other => Halts(other))
      case Loop(body) => RepeatMeans(p, body, MAX_ITERS, depth - 1, scopes)
      case _ => Off
  }

  function Initialisers(inits: seq<FieldInit>): (ids: seq<Id>)
    ensures |ids| == |inits| && forall k :: 0 <= k < |inits| ==> ids[k] == inits[k].init
  {
    seq(|inits|, k requires 0 <= k < |inits| => inits[k].init)
  }

  function Labelled(inits: seq<FieldInit>, xs: seq<Thing>): seq<NamedThing> {
    if |xs| != |inits| then []
    else seq(|xs|, k requires 0 <= k < |xs| => NamedThing(inits[k].name, xs[k]))
  }

  /** First to last. */
  ghost function AllMean(p: Program, ids: seq<Id>, depth: nat, scopes: Scopes): Meanings
    decreases depth, 2, |ids|
  {
    if ids == [] then GiveAll([], scopes)
    else
      match Means(p, ids[0], depth, scopes)
      case Gives(x, s1) =>
        (match AllMean(p, ids[1..], depth, s1)
         case GiveAll(xs, s2) => GiveAll([x] + xs, s2)
         case other => other)
      case Leaves(exit, _, s1) => if |ids| == 1 && !exit.ByReturn? then AllLeave(exit, s1) else AllOff
      case Off => AllOff
      case Stuck => AllStuck
  }

  /** The body once for each thing, the pattern bound to it in the scope the loop stands in. */
  ghost function TurnsMean(p: Program, pat: Pat, xs: seq<Thing>, body: Id, depth: nat, scopes: Scopes): Meaning
    decreases depth, 2, |xs|
  {
    if xs == [] then Gives(Nil, scopes)
    else
      match Accepts(pat, xs[0], scopes)
      case Yes(s1) =>
        (match AfterTurn(Means(p, body, depth, s1))
         case GoOn(s2) => TurnsMean(p, pat, xs[1..], body, depth, s2)
         case Ends(m) => m)
      case _ => Off
  }

  /** What a call invokes: a closure on the spot, or a constant function by its name. */
  function Invocable(p: Program, callee: Expr): Option<BodyFn> {
    if callee.Closure? then Some(BodyFn(callee.params, callee.body))
    else if callee.Path? && |callee.segments| == 1 && callee.segments[0] in p.constFns then
      Some(p.constFns[callee.segments[0]])
    else None
  }

  /**
  Arguments first to last, then the body with the parameters bound to them in a scope of its own, which
  ends with the call. As in the evaluator the body sees the names at the call.
  */
  ghost function CallMeans(p: Program, callee: Expr, args: seq<Id>, depth: nat, scopes: Scopes): Meaning
    decreases depth, 3, 0
  {
    var f := Invocable(p, callee);
    if f.None? then Off
    else
      match AllMean(p, args, depth, scopes)
      case GiveAll(xs, s1) =>
        if |xs| != |f.value.params| then Stuck
        else
          (match AcceptsAll(f.value.params, xs, s1 + [map[]])
           case Yes(s2) =>
             (match Means(p, f.value.body, depth, s2)
              case Gives(x, s3) => if s3 == [] then Off else Gives(x, s3[..|s3| - 1])
              case Leaves(ByReturn, x, s3) => if s3 == [] then Off else Gives(x, s3[..|s3| - 1])
              case other => Halts(other))
           case _ => Off)
      case AllStuck => Stuck
      case _ => Off
  }

  ghost function NameMeans(p: Program, name: Name, scopes: Scopes): Meaning {
    if name in p.fnDefs then Off
    else if exists k: nat :: Innermost(scopes, name, k) then
      var k: nat :| Innermost(scopes, name, k);
      Gives(scopes[k][name], scopes)
    else Off
  }

  ghost function AssignMeans(target: Expr, x: Thing, scopes: Scopes): Meaning {
    if target.Path? && |target.segments| == 1 then
      var name := target.segments[0];
      if exists k: nat :: Innermost(scopes, name, k) then
        var k: nat :| Innermost(scopes, name, k);
        Gives(Nil, scopes[k := With(scopes[k], name, x)])
      else Off
    else Off
  }

  /** The first arm whose pattern accepts the value. */
  ghost function ArmsMean(p: Program, arms: seq<Arm>, x: Thing, depth: nat, scopes: Scopes): Meaning
    decreases depth, 2, |arms|
  {
    if arms == [] then Stuck
    else
      match Accepts(arms[0].pat, x, scopes)
      case Yes(s1) => Means(p, arms[0].body, depth, s1)
      case No => ArmsMean(p, arms[1..], x, depth, scopes)
      case CannotTell => Off
  }

  /** A block's own scope ends with it. */
  ghost function BlockMeans(p: Program, stmts: seq<Id>, tail: Option<Id>, depth: nat, scopes: Scopes): Meaning
    decreases depth, 3, 0
  {
    match AllMean(p, stmts, depth, scopes)
    case GiveAll(_, s1) =>
      (match if tail.Some? then Means(p, tail.value, depth, s1) else Gives(Nil, s1)
       case Gives(x, s2) => if s2 == [] then Off else Gives(x, s2[..|s2| - 1])
       case Leaves(exit, x, s2) => if s2 == [] then Off else Leaves(exit, x, s2[..|s2| - 1])
       case other => other)
    case AllLeave(exit, s1) => if tail.Some? || s1 == [] then Off else Leaves(exit, Nil, s1[..|s1| - 1])
    case AllOff => Off
    case AllStuck => Stuck
  }

  /** As long as the condition is true. */
  ghost function LoopMeans(p: Program, cond: Id, body: Id, turns: nat, depth: nat, scopes: Scopes): Meaning
    decreases depth, 2, turns
  {
    if turns == 0 then Stuck
    else
      match Means(p, cond, depth, scopes)
      case Gives(x, s1) =>
        if x == Truth(false) then Gives(Nil, s1)
        else if x == Truth(true) then
          (match AfterTurn(Means(p, body, depth, s1))
           case GoOn(s2) => LoopMeans(p, cond, body, turns - 1, depth, s2)
           case Ends(m) => m)
        else Stuck
      case other => Halts(other)
  }

  /** Until a `break`. */
  ghost function RepeatMeans(p: Program, body: Id, turns: nat, depth: nat, scopes: Scopes): Meaning
    decreases depth, 2, turns
  {
    if turns == 0 then Stuck
    else
      match AfterTurn(Means(p, body, depth, scopes))
      case GoOn(s1) => RepeatMeans(p, body, turns - 1, depth, s1)
      case Ends(m) => m
  }

  // ----- values -----

  /** The evaluator's result is the answer, and an error where that is wrong, if the answer is clear. */
  ghost predicate Fits(r: Result<Value, Failure>, a: Answer) {
    a == Unclear || a == (if r.Ok? then Is(ThingOf(r.value)) else Wrong)
  }

  /** Rounded down in absolute value, with the sign of the product. */
  lemma QuotIs(a: int, b: int)
    requires b != 0
    ensures N.TruncDiv(a, b) == Quot(a, b)
  {
    ZeroOver(N.Abs(b));
  }

  lemma ZeroOver(d: nat)
    requires d > 0
    ensures 0 / d == 0 && 0 % d == 0
  {
  }

  lemma RemainderIs(m: nat, d: nat)
    requires d > 0
    ensures m % d == m - d * (m / d)
  {
  }

  lemma QuotientsAgree(a: int, b: int)
    requires b != 0
    ensures N.TruncDiv(a, b) == Quot(a, b) && Remainder(a, b) == a - b * Quot(a, b)
  {
    hide N.TruncDiv, Quot;
    QuotIs(a, b);
    var m: int, d: int := N.Abs(a), N.Abs(b);
    var t: int := m / d;
    RemainderIs(m, d);
    QuotSigned(a, b, d, t);
  }

  lemma QuotSigned(a: int, b: int, d: int, t: int)
    requires b != 0 && d == N.Abs(b) && t == N.Abs(a) / d
    ensures b * Quot(a, b) == if a < 0 then -(d * t) else d * t
  {
    N.SignLaw(d, t);
    N.SignLaw(t, d);
    ZeroOver(d);
  }

  lemma ComputedAgrees(op: ArithOp, a: int, b: int)
    ensures Exact(op, a, b) == Computed(op, a, b)
    ensures Exact(op, a, b).None? <==> (op.Div? || op.Rem?) && b == 0
  {
    hide Quot, Remainder, N.TruncDiv;
    if b != 0 {
      QuotientsAgree(a, b);
    }
  }

  lemma ArithAgrees(op: ArithOp, x: Value, y: Value, pointerWidth: nat)
    ensures Fits(ApplyArith(op, x, y, pointerWidth), Operate(Arith(op), ThingOf(x), ThingOf(y), pointerWidth))
  {
    hide Exact, Computed, Holds, ValidateRange;
    if x.IntV? && y.IntV? {
      ComputedAgrees(op, x.i, y.i);
      var r := Exact(op, x.i, y.i);
      if r.Some? {
        HoldsIs(IntV(r.value, x.ity), pointerWidth);
      }
    } else if x.UintV? && y.UintV? {
      ComputedAgrees(op, x.u, y.u);
      var r := Exact(op, x.u, y.u);
      if r.Some? {
        HoldsIs(UintV(r.value, x.uty), pointerWidth);
      }
    }
  }

  lemma HoldsIs(v: Value, pointerWidth: nat)
    ensures v.IntV? || v.UintV? ==>
              (ValidateRange(v, pointerWidth) == if Holds(ThingOf(v).ty, ThingOf(v).n, pointerWidth) then Some(v)
               else None)
    ensures v.IntV? && Holds(ThingOf(v).ty, v.i, pointerWidth) ==> -TWO_127 <= v.i < TWO_127
    ensures v.UintV? && Holds(ThingOf(v).ty, v.u, pointerWidth) ==> 0 <= v.u < TWO_128
  {
  }

  lemma OperateAgrees(p: Program, op: BinOp, x: Value, y: Value)
    ensures Fits(ApplyBinOp(p, op, x, y), Operate(op, ThingOf(x), ThingOf(y), p.pointerWidth))
  {
    hide ApplyArith;
    if op.Arith? {
      ArithAgrees(op.op, x, y, p.pointerWidth);
    }
  }

  lemma InvertAgrees(p: Program, op: UnOp, x: Value)
    ensures Fits(ApplyUnOp(p, op, x), Invert(op, ThingOf(x), p.pointerWidth))
  {
    hide Holds, ValidateRange;
    if x.IntV? {
      HoldsIs(IntV(0 - x.i, x.ity), p.pointerWidth);
    }
  }

  lemma CutIs(v: int, span: int)
    requires span > 0 && span % 2 == 0
    ensures Signed(v, span) == if v % span >= span / 2 then v % span - span else v % span
  {
    var q, m := v / span, v % span;
    assert v == span * q + m;
    var w := v + span / 2;
    if m >= span / 2 {
      Quotients(w, span, q + 1, m - span / 2);
    } else {
      Quotients(w, span, q, m + span / 2);
    }
  }

  lemma Quotients(w: int, d: int, q: int, r: int)
    requires d > 0 && w == d * q + r && 0 <= r < d
    ensures w % d == r
  {
    B.QuotientIs(w, d, q, r);
  }

  /** Going through 128 bits first does not matter. */
  lemma CutTwice(u: int, span: int, wide: int)
    requires span > 0 && wide > 0 && wide % span == 0
    ensures (u % wide) % span == u % span
    ensures wide % 2 == 0 ==> Signed(u, wide) % span == u % span
  {
    var k, q := wide / span, u / wide;
    assert wide == span * k;
    assert u % wide == u - wide * q;
    SameRemainder(u % wide, u, span, -(k * q)) by {
      Regroup(span, k, q);
    }
    if wide % 2 == 0 {
      CutIs(u, wide);
      SameRemainder(u % wide - wide, u % wide, span, -k) by {
        assert span * -k == -(span * k);
      }
    }
  }

  lemma Regroup(a: int, b: int, c: int)
    ensures (a * b) * c == a * (b * c) && a * -(b * c) == -(a * (b * c))
  {
  }

  lemma SameRemainder(a: int, b: int, d: int, k: int)
    requires d > 0 && a == b + d * k
    ensures a % d == b % d
  {
    var q, r := b / d, b % d;
    assert b == d * q + r;
    assert d * (q + k) == d * q + d * k;
    Quotients(a, d, q + k, r);
  }

  lemma WideSpans(t: NumTy)
    requires Count(t) > 0
    ensures TWO_128 % Count(t) == 0 && Count(t) % 2 == 0 && TWO_128 % 2 == 0
  {
  }

  lemma CutFromWide(n: int, t: NumTy)
    requires Count(t) > 0
    ensures Cut(n % TWO_128, t) == Cut(n, t) && Cut(Signed(n, TWO_128), t) == Cut(n, t)
  {
    hide Signed, Count;
    WideSpans(t);
    CutTwice(n, Count(t), TWO_128);
  }

  lemma CutIsCast(n: int, t: NumTy)
    requires Count(t) > 0
    ensures t.SignedTy? ==> Signed(n, Span(IntBits(t.ity, 64))) == Cut(n, t)
    ensures t.UnsignedTy? ==> n % Span(UintBits(t.uty, 64)) == Cut(n, t)
  {
    hide Signed, Count, Span, IntBits, UintBits;
    SpanIsCount(t);
    WideSpans(t);
    CutIs(n, Count(t));
  }

  lemma ConvertAgrees(v: Value, t: CastTarget)
    ensures Fits(FromOption(CastTo(v, t)), Convert(ThingOf(v), t))
  {
    hide Signed, Span, IntBits, UintBits, Cut;
    var ty := if t.ToInt? then SignedTy(t.ity) else if t.ToUint? then UnsignedTy(t.uty) else SignedTy(Isize);
    if (v.IntV? || v.UintV?) && Count(ty) > 0 {
      var n := ThingOf(v).n;
      CutFromWide(n, ty);
      CutIsCast(n, ty);
      CutIsCast(n % TWO_128, ty);
      CutIsCast(Signed(n, TWO_128), ty);
    }
  }

  /** A cast gives the number of the target's type that is congruent to the operand modulo the type's size. */
  lemma CastCongruent(v: Value, ty: NumTy)
    requires (v.IntV? || v.UintV?) && Count(ty) > 0
    ensures var w := CastTo(v, if ty.SignedTy? then ToInt(ty.ity) else ToUint(ty.uty));
            && w.Some? && (w.value.IntV? || w.value.UintV?) && ThingOf(w.value).ty == ty
            && ThingOf(w.value).n % Count(ty) == ThingOf(v).n % Count(ty)
            && Holds(ty, ThingOf(w.value).n, 64)
  {
    hide Signed, Span, IntBits, UintBits, Cut, Holds;
    ConvertAgrees(v, if ty.SignedTy? then ToInt(ty.ity) else ToUint(ty.uty));
    CutHolds(ThingOf(v).n, ty);
  }

  lemma CutHolds(n: int, t: NumTy)
    requires Count(t) > 0
    ensures Cut(n, t) % Count(t) == n % Count(t) && Holds(t, Cut(n, t), 64)
  {
    var m := n % Count(t);
    SameRemainder(m, n, Count(t), -(n / Count(t))) by {
      assert Count(t) * -(n / Count(t)) == -(Count(t) * (n / Count(t)));
    }
    SameRemainder(m - Count(t), m, Count(t), -1);
  }

  lemma SpanIsCount(t: NumTy)
    requires Count(t) > 0
    ensures Count(t) == Span(if t.SignedTy? then IntBits(t.ity, 64) else UintBits(t.uty, 64))
  {
  }

  // ----- scopes -----

  lemma {:induction false} LookupIs(env: Env, name: Name, k: nat)
    ensures Innermost(ScopesOf(env), name, k) <==> ScopeOf(env, name) == Some(k)
    ensures ScopeOf(env, name).Some? <==> Lookup(env, name).Some?
    ensures ScopeOf(env, name) == Some(k) ==>
              k < |env| && name in env[k] && Lookup(env, name) == Some(env[k][name])
    decreases |env|
  {
    hide ScopesOf;
    SameLength(env);
    SameNames(env, name);
    if env != [] {
      var last, front := |env| - 1, env[..|env| - 1];
      LookupIs(front, name, k);
      SameLength(front);
      SameNames(front, name);
      assert forall j :: 0 <= j < last ==> front[j] == env[j];
    }
  }

  lemma SameNames(env: Env, name: Name)
    ensures forall j :: 0 <= j < |env| ==> (name in ScopesOf(env)[j] <==> name in env[j])
  {
  }

  lemma PutIs(scope: map<Name, Value>, name: Name, v: Value)
    ensures ScopeOfThings(Put(scope, name, v)) == With(ScopeOfThings(scope), name, ThingOf(v))
  {
  }

  lemma UpdateIs(env: Env, k: nat, name: Name, v: Value)
    requires k < |env|
    ensures ScopesOf(env[k := Put(env[k], name, v)]) ==
            ScopesOf(env)[k := With(ScopesOf(env)[k], name, ThingOf(v))]
  {
    hide ScopeOfThings, Put, With;
    PutIs(env[k], name, v);
  }

  lemma BindIs(env: Env, name: Name, v: Value)
    ensures ScopesOf(Bind(env, name, v)) == Declare(ScopesOf(env), name, ThingOf(v))
  {
    hide ScopeOfThings, Put, With;
    if env != [] {
      UpdateIs(env, |env| - 1, name, v);
    }
  }

  lemma AssignIs(env: Env, name: Name, v: Value)
    ensures !BoundOutside(ScopesOf(env), name) ==>
              ScopesOf(AssignName(env, name, v)) == Declare(ScopesOf(env), name, ThingOf(v))
    ensures forall k: nat :: Innermost(ScopesOf(env), name, k) ==>
              ScopesOf(AssignName(env, name, v)) == ScopesOf(env)[k := With(ScopesOf(env)[k], name, ThingOf(v))]
  {
    hide ScopeOfThings, Put, With, ScopesOf;
    var at := ScopeOf(env, name);
    BindIs(env, name, v);
    if at.Some? {
      LookupIs(env, name, at.value);
      UpdateIs(env, at.value, name, v);
      SameLength(env);
    }
    forall k: nat | Innermost(ScopesOf(env), name, k)
      ensures at == Some(k)
    {
      LookupIs(env, name, k);
    }
  }

  lemma SameLength(env: Env)
    ensures |ScopesOf(env)| == |env|
  {
  }

  // ----- agreement -----

  function Signal(exit: Exit): Option<Control> {
    match exit
    case ByBreak => Some(BreakOut)
    case ByContinue => Some(ContinueOn)
    case ByReturn => None
  }

  /** An evaluation gives exactly what is meant, or fails where nothing is, unless it left the ground covered. */
  ghost predicate Agrees(o: Outcome, m: Meaning) {
    || m.Off?
    || (o.0.Err? && m.Stuck?)
    || (o.0.Ok? && m == Gives(ThingOf(o.0.value), ScopesOf(o.1.env)) && o.1.control.None?)
    || (o.0.Ok? && m.Leaves? && m == Leaves(m.exit, ThingOf(o.0.value), ScopesOf(o.1.env)) &&
        o.1.control == Signal(m.exit))
  }

  /** Constructs that are evaluated without control flow. */
  predicate CoveredOperation(e: Expr) {
    || e.Binary? || e.Unary? || e.Cast? || e.Literal? || e.Path? || e.Tuple? || e.Array? || e.Struct? || e.Index?
    || e.Field? || e.Ref? || (e.Range? && e.start.Some? && e.end.Some?)
  }

  predicate CoveredControl(e: Expr) {
    || e.If? || e.Match? || e.Block? || e.Let? || e.Assign? || e.While? || e.Loop? || e.For? || e.Call? || e.Return?
    || e.Break? || e.Continue?
  }

  lemma {:induction false} IdAgrees(p: Program, id: Id, left: nat, st: State)
    requires st.control.None?
    ensures Agrees(EvalId(p, id, left, st), Means(p, id, left, ScopesOf(st.env)))
    decreases left, 1, 0
  {
    hide EvalControl, EvalOperation, Means, ScopesOf, Agrees;
    var e := At(p, id);
    if left == 0 {
      NoDepth(p, id, st);
    } else if CoveredOperation(e) {
      OperationAgrees(p, id, left - 1, st);
    } else if CoveredControl(e) {
      ControlAgrees(p, id, left - 1, st);
    } else {
      NotCovered(p, id, left - 1, st);
    }
  }

  lemma NoDepth(p: Program, id: Id, st: State)
    ensures Agrees(EvalId(p, id, 0, st), Means(p, id, 0, ScopesOf(st.env)))
  {
  }

  lemma NotCovered(p: Program, id: Id, left: nat, st: State)
    requires !CoveredOperation(At(p, id)) && !CoveredControl(At(p, id))
    ensures Agrees(EvalExpr(p, At(p, id), left + 1, st), Means(p, id, left + 1, ScopesOf(st.env)))
  {
    hide EvalExpr;
  }

  lemma {:induction false} OperationAgrees(p: Program, id: Id, left: nat, st: State)
    requires st.control.None? && CoveredOperation(At(p, id))
    ensures Agrees(EvalOperation(p, At(p, id), left, st), Means(p, id, left + 1, ScopesOf(st.env)))
    decreases left, 4, 0
  {
    hide EvalId, EvalOperation, Agrees, ScopesOf, Means;
    var e := At(p, id);
    if e.Binary? {
      BinaryAgrees(p, id, left, st);
    } else if e.Unary? || e.Cast? || e.Ref? {
      UnaryAgrees(p, id, left, st);
    } else if e.Tuple? || e.Array? {
      SequenceAgrees(p, id, left, st);
    } else if e.Struct? {
      StructAgrees(p, id, left, st);
    } else if e.Index? {
      IndexAgrees(p, id, left, st);
    } else if e.Field? {
      FieldAgrees(p, id, left, st);
    } else if e.Range? {
      RangeAgrees(p, id, left, st);
    } else {
      LeafAgrees(p, id, left, st);
    }
  }

  lemma StructIs(inits: seq<FieldInit>, vs: seq<Value>)
    requires |vs| == |inits|
    ensures Labelled(inits, ThingsOf(vs)) == NamedOf(Named(inits, vs)) && Initialisers(inits) == InitIds(inits)
  {
    hide ThingOf;
  }

  lemma {:induction false} StructAgrees(p: Program, id: Id, left: nat, st: State)
    requires st.control.None? && At(p, id).Struct?
    ensures Agrees(EvalOperation(p, At(p, id), left, st), Means(p, id, left + 1, ScopesOf(st.env)))
    decreases left, 3, 0
  {
    hide EvalAll, AllMean, ScopesOf, ThingsOf, NamedOf, Labelled, Named, InitIds, Initialisers;
    var inits := At(p, id).inits;
    SameIds(inits);
    AllAgree(p, InitIds(inits), left, st);
    var vs := EvalAll(p, InitIds(inits), left, st).0;
    if vs.Ok? {
      StructIs(inits, vs.value);
    }
  }

  lemma {:induction false} SequenceAgrees(p: Program, id: Id, left: nat, st: State)
    requires st.control.None? && (At(p, id).Tuple? || At(p, id).Array?)
    ensures Agrees(EvalOperation(p, At(p, id), left, st), Means(p, id, left + 1, ScopesOf(st.env)))
    decreases left, 3, 0
  {
    hide EvalAll, AllMean, ScopesOf, ThingsOf;
    var elems := At(p, id).elems;
    AllAgree(p, elems, left, st);
    var vs := EvalAll(p, elems, left, st).0;
    if vs.Ok? {
      PartsOf(vs.value);
    }
  }

  lemma PartsOf(vs: seq<Value>)
    ensures ThingOf(TupleV(vs)) == Items(ThingsOf(vs), true) && ThingOf(ArrayV(vs)) == Items(ThingsOf(vs), false)
  {
  }

  lemma SameIds(inits: seq<FieldInit>)
    ensures Initialisers(inits) == InitIds(inits) && |InitIds(inits)| == |inits|
  {
  }

  lemma PartAtIs(v: Value, k: Value)
    ensures Fits(ElementAt(v, k), PartAt(ThingOf(v), ThingOf(k)))
  {
  }

  lemma {:induction false} IndexAgrees(p: Program, id: Id, left: nat, st: State)
    requires st.control.None? && At(p, id).Index?
    ensures Agrees(EvalOperation(p, At(p, id), left, st), Means(p, id, left + 1, ScopesOf(st.env)))
    decreases left, 3, 0
  {
    hide EvalId, ScopesOf, ElementAt, PartAt, ThingOf;
    var e := At(p, id);
    var (x, s1) := EvalId(p, e.base, left, st);
    IdAgrees(p, e.base, left, st);
    if x.Ok? && Means(p, e.base, left, ScopesOf(st.env)).Gives? {
      IdAgrees(p, e.index, left, s1);
      var (y, s2) := EvalId(p, e.index, left, s1);
      if y.Ok? {
        PartAtIs(x.value, y.value);
      }
    }
  }

  lemma {:induction false} FieldFound(fields: seq<FieldValue>, name: Name)
    ensures FindField(fields, name).Some? ==>
              exists k :: FirstNamed(NamedOf(fields), name, k) &&
                          NamedOf(fields)[k].thing == ThingOf(FindField(fields, name).value)
    ensures FindField(fields, name).None? ==> forall k :: 0 <= k < |fields| ==> fields[k].name != name
    decreases |fields|
  {
    hide ThingOf;
    if fields != [] {
      if fields[0].name == name {
        assert FirstNamed(NamedOf(fields), name, 0);
      } else {
        FieldFound(fields[1..], name);
        if FindField(fields[1..], name).Some? {
          var k :| FirstNamed(NamedOf(fields[1..]), name, k) &&
                   NamedOf(fields[1..])[k].thing == ThingOf(FindField(fields[1..], name).value);
          assert forall j :: 0 <= j < |fields| - 1 ==> NamedOf(fields)[j + 1] == NamedOf(fields[1..])[j];
          FurtherNamed(NamedOf(fields), NamedOf(fields[1..]), name, k);
        }
      }
    }
  }

  lemma FurtherNamed(all: seq<NamedThing>, rest: seq<NamedThing>, name: Name, k: int)
    requires FirstNamed(rest, name, k) && |all| == |rest| + 1 && all[0].name != name
    requires forall j :: 0 <= j < |rest| ==> all[j + 1] == rest[j]
    ensures FirstNamed(all, name, k + 1) && all[k + 1] == rest[k]
  {
    forall j | 0 <= j < k + 1
      ensures all[j].name != name
    {
      assert j > 0 ==> all[j] == rest[j - 1];
    }
  }

  lemma NamesKept(fields: seq<FieldValue>)
    ensures forall k :: 0 <= k < |fields| ==> NamedOf(fields)[k].name == fields[k].name
  {
    hide ThingOf;
  }

  lemma MemberIs(v: Value, name: Name)
    ensures Fits(FieldOf(v, name), Member(ThingOf(v), name))
  {
    hide FindField, NamedOf;
    if v.StructV? {
      FieldFound(v.fields, name);
      NamesKept(v.fields);
    }
    if v.StructV? && FindField(v.fields, name).Some? {
      var k :| FirstNamed(NamedOf(v.fields), name, k)
        && NamedOf(v.fields)[k].thing == ThingOf(FindField(v.fields, name).value);
      assert forall j :: FirstNamed(NamedOf(v.fields), name, j) ==> j == k;
    }
  }

  lemma {:induction false} FieldAgrees(p: Program, id: Id, left: nat, st: State)
    requires st.control.None? && At(p, id).Field?
    ensures Agrees(EvalOperation(p, At(p, id), left, st), Means(p, id, left + 1, ScopesOf(st.env)))
    decreases left, 3, 0
  {
    hide EvalId, ScopesOf, FieldOf, Member, ThingOf;
    var e := At(p, id);
    IdAgrees(p, e.recv, left, st);
    var (x, s1) := EvalId(p, e.recv, left, st);
    if x.Ok? {
      MemberIs(x.value, e.field);
    }
  }

  lemma BoundedIs(x: Value, y: Value, inclusive: bool)
    ensures var a := Bounded(ThingOf(x), ThingOf(y), inclusive);
            a == Unclear || a == Is(ThingOf(RangeV(Some(x), Some(y), inclusive)))
  {
  }

  lemma {:induction false} RangeAgrees(p: Program, id: Id, left: nat, st: State)
    requires st.control.None? && At(p, id).Range? && At(p, id).start.Some? && At(p, id).end.Some?
    ensures Agrees(EvalOperation(p, At(p, id), left, st), Means(p, id, left + 1, ScopesOf(st.env)))
    decreases left, 3, 0
  {
    hide EvalId, ScopesOf, ThingOf, Bounded;
    var e := At(p, id);
    var (x, s1) := EvalId(p, e.start.value, left, st);
    IdAgrees(p, e.start.value, left, st);
    if x.Ok? && Means(p, e.start.value, left, ScopesOf(st.env)).Gives? {
      IdAgrees(p, e.end.value, left, s1);
      var (y, s2) := EvalId(p, e.end.value, left, s1);
      if y.Ok? {
        BoundedIs(x.value, y.value, e.inclusive);
      }
    }
  }

  lemma LeafAgrees(p: Program, id: Id, left: nat, st: State)
    requires st.control.None? && (At(p, id).Literal? || At(p, id).Path?)
    ensures Agrees(EvalOperation(p, At(p, id), left, st), Means(p, id, left + 1, ScopesOf(st.env)))
  {
    hide ScopesOf;
    var e := At(p, id);
    if e.Path? && |e.segments| == 1 {
      NameAgrees(p, e.segments[0], st.env);
    }
  }

  lemma NameAgrees(p: Program, name: Name, env: Env)
    ensures var r, m := EvalPath(p, [name], env), NameMeans(p, name, ScopesOf(env));
            m.Off? || (r.Ok? && m == Gives(ThingOf(r.value), ScopesOf(env)))
  {
    hide ScopesOf, Lookup, ScopeOf;
    SameLength(env);
    if k: nat :| Innermost(ScopesOf(env), name, k) {
      LookupIs(env, name, k);
      ThingAt(env, k, name);
      forall j: nat
        ensures Innermost(ScopesOf(env), name, j) ==> j == k
      {
      }
    }
  }

  lemma ThingAt(env: Env, k: nat, name: Name)
    requires k < |env| && name in env[k]
    ensures name in ScopesOf(env)[k] && ScopesOf(env)[k][name] == ThingOf(env[k][name])
  {
  }

  lemma {:induction false} BinaryAgrees(p: Program, id: Id, left: nat, st: State)
    requires st.control.None? && At(p, id).Binary?
    ensures Agrees(EvalOperation(p, At(p, id), left, st), Means(p, id, left + 1, ScopesOf(st.env)))
    decreases left, 3, 0
  {
    hide EvalId, ScopesOf, ApplyBinOp, Operate, ThingOf;
    var e := At(p, id);
    var (x, s1) := EvalId(p, e.lhs, left, st);
    IdAgrees(p, e.lhs, left, st);
    if x.Ok? && Means(p, e.lhs, left, ScopesOf(st.env)).Gives? {
      IdAgrees(p, e.rhs, left, s1);
      var (y, s2) := EvalId(p, e.rhs, left, s1);
      if y.Ok? {
        OperateAgrees(p, e.binop, x.value, y.value);
      }
    }
  }

  lemma {:induction false} UnaryAgrees(p: Program, id: Id, left: nat, st: State)
    requires st.control.None? && (At(p, id).Unary? || At(p, id).Cast? || At(p, id).Ref?)
    ensures Agrees(EvalOperation(p, At(p, id), left, st), Means(p, id, left + 1, ScopesOf(st.env)))
    decreases left, 3, 0
  {
    hide EvalId, ScopesOf, ApplyUnOp, CastTo, Invert, Convert, ThingOf, FromOption;
    var e := At(p, id);
    IdAgrees(p, e.operand, left, st);
    var (x, s1) := EvalId(p, e.operand, left, st);
    if x.Ok? {
      if e.Unary? {
        InvertAgrees(p, e.unop, x.value);
      } else if e.Cast? {
        ConvertAgrees(x.value, e.target);
      }
    }
  }

  lemma {:induction false} ControlAgrees(p: Program, id: Id, left: nat, st: State)
    requires st.control.None? && CoveredControl(At(p, id))
    ensures Agrees(EvalControl(p, At(p, id), left, st), Means(p, id, left + 1, ScopesOf(st.env)))
    decreases left, 6, 0
  {
    hide EvalId, EvalControl, Agrees, ScopesOf, Means;
    var e := At(p, id);
    if e.If? {
      IfAgrees(p, id, left, st);
    } else if e.Match? {
      MatchAgrees(p, id, left, st);
    } else if e.Block? {
      BlockAgrees(p, id, left, st);
    } else if e.While? {
      WhileAgrees(p, id, left, st);
    } else if e.Loop? {
      RepeatAgrees(p, e.body, MAX_ITERS, left, st);
      LoopIs(p, id, left, st);
    } else if e.Return? || e.Break? || e.Continue? {
      LeaveAgrees(p, id, left, st);
    } else if e.For? {
      ForAgrees(p, id, left, st);
    } else if e.Call? {
      CallAgrees(p, id, left, st);
    } else {
      BindingAgrees(p, id, left, st);
    }
  }

  // ----- loops over parts and numbers -----

  lemma {:induction false} CountUpIs(from: int, end: int, inclusive: bool, proto: Value, budget: nat, ty: NumTy)
    requires (proto.IntV? && ty == SignedTy(proto.ity)) || (proto.UintV? && ty == UnsignedTy(proto.uty))
    requires (proto.UintV? ==> from >= 0) && Countable(end, ty)
    requires (if inclusive then end + 1 else end) - from <= budget
    ensures var n := (if inclusive then end + 1 else end) - from;
            var all := CountUp(from, end, inclusive, proto, budget);
            |all| == (if n < 0 then 0 else n) && forall k :: 0 <= k < |all| ==> ThingOf(all[k]) == Num(from + k, ty)
    decreases budget
  {
    if !(if inclusive then from > end else from >= end) {
      CountUpIs(from + 1, end, inclusive, proto, budget - 1, ty);
    }
  }

  lemma TurnsAre(v: Value)
    ensures Elements(v).Ok? && Turns(ThingOf(v)).Some? ==> ThingsOf(Elements(v).value) == Turns(ThingOf(v)).value
    ensures Turns(ThingOf(v)).Some? ==> Elements(v).Ok?
  {
    hide CountUp;
    if v.RangeV? && Turns(ThingOf(v)).Some? {
      var t := ThingOf(v);
      SmallSigned(t.low, t.ty);
      SmallSigned(t.high, t.ty);
      CountUpIs(t.low, t.high, t.inclusive, v.start.value, MAX_ITERS, t.ty);
    }
  }

  lemma SmallSigned(n: int, ty: NumTy)
    ensures Countable(n, ty) ==> Signed(n, TWO_128) == n
  {
  }

  lemma {:induction false} ForAgrees(p: Program, id: Id, left: nat, st: State)
    requires st.control.None? && At(p, id).For?
    ensures Agrees(EvalControl(p, At(p, id), left, st), Means(p, id, left + 1, ScopesOf(st.env)))
    decreases left, 3, 0
  {
    hide EvalId, EvalFor, ScopesOf, ThingOf, ThingsOf, Turns, Elements, TurnsMean;
    var e := At(p, id);
    var (v, s1) := EvalId(p, e.iterable, left, st);
    IdAgrees(p, e.iterable, left, st);
    if v.Ok? && Means(p, e.iterable, left, ScopesOf(st.env)).Gives? {
      TurnsAre(v.value);
      if Elements(v.value).Ok? {
        TurnsAgree(p, e.pat, Elements(v.value).value, e.body, left, s1);
      }
    }
  }

  lemma {:induction false} TurnsAgree(p: Program, pat: Pat, vs: seq<Value>, body: Id, left: nat, st: State)
    requires st.control.None?
    ensures Agrees(EvalFor(p, pat, vs, body, left, st), TurnsMean(p, pat, ThingsOf(vs), body, left, ScopesOf(st.env)))
    decreases left, 2, |vs|
  {
    hide EvalId, ScopesOf, Matches, Accepts;
    if vs != [] {
      AcceptsAgrees(pat, vs[0], st.env);
      var s0 := st.(env := Matches(pat, vs[0], st.env).env);
      assert ThingsOf(vs)[1..] == ThingsOf(vs[1..]);
      if Accepts(pat, ThingOf(vs[0]), ScopesOf(st.env)).Yes? {
        IdAgrees(p, body, left, s0);
        var (r, s1) := EvalId(p, body, left, s0);
        if r.Ok? && AfterTurn(Means(p, body, left, ScopesOf(s0.env))).GoOn? {
          TurnsAgree(p, pat, vs[1..], body, left, s1.(control := None));
        }
      }
    }
  }

  // ----- calls -----

  lemma {:induction false} ParamsBound(params: seq<Pat>, vs: seq<Value>, env: Env)
    requires |params| == |vs|
    ensures var b, a := BindParams(params, vs, env), AcceptsAll(params, ThingsOf(vs), ScopesOf(env));
            a.Yes? ==> b.result.Ok? && ScopesOf(b.env) == a.scopes
    decreases |params|
  {
    hide ScopesOf, ThingOf, Matches, Accepts;
    if params != [] {
      AcceptsAgrees(params[0], vs[0], env);
      assert ThingsOf(vs)[1..] == ThingsOf(vs[1..]);
      ParamsBound(params[1..], vs[1..], Matches(params[0], vs[0], env).env);
    }
  }

  lemma {:induction false} InvocationAgrees(p: Program, params: seq<Pat>, body: Id, vs: seq<Value>, left: nat,
                                            st: State)
    requires st.control.None? && |params| == |vs|
    ensures var a := AcceptsAll(params, ThingsOf(vs), ScopesOf(st.env) + [map[]]);
            a.Yes? ==>
              var m := Means(p, body, left, a.scopes);
              var o := BindAndEval(p, params, body, vs, left, st);
              || m.Off? || (m.Leaves? && !m.exit.ByReturn?) || (m.Stuck? && o.0.Err?)
              || ((m.Gives? || m.Leaves?) && o.0.Ok? && m.thing == ThingOf(o.0.value) && o.1.control.None? &&
                  (m.scopes != [] ==> ScopesOf(o.1.env) == m.scopes[..|m.scopes| - 1]))
    decreases left, 4, 0
  {
    hide EvalId, ScopesOf, ThingsOf, BindParams, AcceptsAll, ThingOf;
    PushIs(st);
    ParamsBound(params, vs, PushScope(st).env);
    var b := BindParams(params, vs, PushScope(st).env);
    var s1 := st.(env := b.env);
    if AcceptsAll(params, ThingsOf(vs), ScopesOf(PushScope(st).env)).Yes? {
      IdAgrees(p, body, left, s1);
      PopIs(EvalId(p, body, left, s1).1);
    }
  }

  lemma {:induction false} CallAgrees(p: Program, id: Id, left: nat, st: State)
    requires st.control.None? && At(p, id).Call?
    ensures Agrees(EvalControl(p, At(p, id), left, st), Means(p, id, left + 1, ScopesOf(st.env)))
    decreases left, 5, 0
  {
    hide EvalAll, AllMean, BindAndEval, ScopesOf, ThingOf, ThingsOf, AcceptsAll;
    var e := At(p, id);
    var f := Invocable(p, At(p, e.func));
    if f.Some? {
      AllAgree(p, e.args, left, st);
      var (vs, s1) := EvalAll(p, e.args, left, st);
      if vs.Ok? && AllMean(p, e.args, left, ScopesOf(st.env)).GiveAll? && |vs.value| == |f.value.params| {
        InvocationAgrees(p, f.value.params, f.value.body, vs.value, left, s1);
      }
    }
  }
  lemma {:induction false} IfAgrees(p: Program, id: Id, left: nat, st: State)
    requires st.control.None? && At(p, id).If?
    ensures Agrees(EvalControl(p, At(p, id), left, st), Means(p, id, left + 1, ScopesOf(st.env)))
    decreases left, 3, 0
  {
    hide EvalId, ScopesOf;
    var e := At(p, id);
    var (c, s1) := EvalId(p, e.cond, left, st);
    IdAgrees(p, e.cond, left, st);
    if c.Ok? && c.value.BoolV? && Means(p, e.cond, left, ScopesOf(st.env)).Gives? {
      if c.value.b {
        IdAgrees(p, e.thn, left, s1);
      } else {
        MaybeAgrees(p, e.els, left, s1);
      }
    }
  }

  ghost function MaybeMeans(p: Program, id: Option<Id>, depth: nat, scopes: Scopes): Meaning {
    if id.Some? then Means(p, id.value, depth, scopes) else Gives(Nil, scopes)
  }

  lemma {:induction false} MaybeAgrees(p: Program, id: Option<Id>, left: nat, st: State)
    requires st.control.None?
    ensures Agrees(EvalMaybe(p, id, left, st), MaybeMeans(p, id, left, ScopesOf(st.env)))
    decreases left, 2, 0
  {
    hide EvalId, ScopesOf;
    if id.Some? {
      IdAgrees(p, id.value, left, st);
    }
  }

  lemma {:induction false} MatchAgrees(p: Program, id: Id, left: nat, st: State)
    requires st.control.None? && At(p, id).Match?
    ensures Agrees(EvalControl(p, At(p, id), left, st), Means(p, id, left + 1, ScopesOf(st.env)))
    decreases left, 3, 0
  {
    hide EvalId, EvalArms, ScopesOf, ThingOf;
    var e := At(p, id);
    var (v, s1) := EvalId(p, e.scrutinee, left, st);
    IdAgrees(p, e.scrutinee, left, st);
    if v.Ok? && Means(p, e.scrutinee, left, ScopesOf(st.env)).Gives? {
      ArmsAgree(p, e.arms, v.value, left, s1);
    }
  }

  /** A match that is told is the evaluator's, with the names it binds. */
  ghost predicate SameMatch(m: PatOutcome, a: Acceptance, env: Env) {
    && (a.Yes? ==> m.result == Ok(true) && ScopesOf(m.env) == a.scopes)
    && (a.No? ==> m.result == Ok(false) && ScopesOf(m.env) == ScopesOf(env))
  }

  lemma {:induction false} AcceptsAgrees(pat: Pat, v: Value, env: Env)
    ensures SameMatch(Matches(pat, v, env), Accepts(pat, ThingOf(v), ScopesOf(env)), env)
    decreases pat, 0
  {
    hide ScopesOf, Bind, Declare, MatchesAll, MatchesAny, AcceptsAll, AcceptsAny;
    match pat
    case PBinding(name) => BindIs(env, name, v);
    case PTuple(parts) => if v.TupleV? && |parts| == |v.elems| { AllAccepted(parts, v.elems, env); }
    case PSlice(parts) => if v.ArrayV? && |parts| == |v.elems| { AllAccepted(parts, v.elems, env); }
    case POr(alts) => AnyAccepted(alts, v, env);
    case PRange(_, _, _) => SpanAccepted(pat, v, env);
    case _ =>
  }

  lemma SpanAccepted(pat: Pat, v: Value, env: Env)
    requires pat.PRange?
    ensures SameMatch(Matches(pat, v, env), Accepts(pat, ThingOf(v), ScopesOf(env)), env)
  {
    hide ScopesOf;
  }

  lemma {:induction false} AllAccepted(pats: seq<Pat>, vs: seq<Value>, env: Env)
    requires |pats| == |vs|
    ensures SameMatch(MatchesAll(pats, vs, env), AcceptsAll(pats, ThingsOf(vs), ScopesOf(env)), env)
    decreases pats, 1
  {
    hide ScopesOf, ThingOf, Matches, Accepts;
    if pats != [] {
      AcceptsAgrees(pats[0], vs[0], env);
      assert ThingsOf(vs)[1..] == ThingsOf(vs[1..]);
      AllAccepted(pats[1..], vs[1..], Matches(pats[0], vs[0], env).env);
    }
  }

  lemma {:induction false} AnyAccepted(alts: seq<Pat>, v: Value, env: Env)
    ensures SameMatch(MatchesAny(alts, v, env), AcceptsAny(alts, ThingOf(v), ScopesOf(env)), env)
    decreases alts, 1
  {
    hide ScopesOf, ThingOf, Matches, Accepts;
    if alts != [] {
      AcceptsAgrees(alts[0], v, env);
      AnyAccepted(alts[1..], v, Matches(alts[0], v, env).env);
    }
  }

  lemma {:induction false} ArmsAgree(p: Program, arms: seq<Arm>, v: Value, left: nat, st: State)
    requires st.control.None?
    ensures Agrees(EvalArms(p, arms, v, left, st), ArmsMean(p, arms, ThingOf(v), left, ScopesOf(st.env)))
    decreases left, 2, |arms|
  {
    hide EvalId, ScopesOf, ThingOf, Accepts, Matches;
    if arms != [] {
      AcceptsAgrees(arms[0].pat, v, st.env);
      var s1 := st.(env := Matches(arms[0].pat, v, st.env).env);
      match Accepts(arms[0].pat, ThingOf(v), ScopesOf(st.env)) {
        case Yes(_) => IdAgrees(p, arms[0].body, left, s1);
        case No => ArmsAgree(p, arms[1..], v, left, s1);
        case CannotTell =>
      }
    }
  }

  lemma {:induction false} AllAgree(p: Program, ids: seq<Id>, left: nat, st: State)
    requires st.control.None?
    ensures var (vs, s1) := EvalAll(p, ids, left, st);
            var m := AllMean(p, ids, left, ScopesOf(st.env));
            && (vs.Ok? ==> |vs.value| == |ids|)
            && (|| m.AllOff?
                || (m.AllStuck? && vs.Err?)
                || (vs.Ok? && m == GiveAll(ThingsOf(vs.value), ScopesOf(s1.env)) && s1.control.None?)
                || (vs.Ok? && m.AllLeave? && m.scopes == ScopesOf(s1.env) && s1.control == Signal(m.exit)))
    decreases left, 2, |ids|
  {
    hide EvalId, ScopesOf, ThingOf;
    if ids == [] {
      assert ThingsOf([]) == [];
    } else {
      var (v, s1) := EvalId(p, ids[0], left, st);
      IdAgrees(p, ids[0], left, st);
      if v.Ok? {
        if !Means(p, ids[0], left, ScopesOf(st.env)).Gives? {
          AllCount(p, ids[1..], left, s1);
        } else {
          AllAgree(p, ids[1..], left, s1);
          var (vs, s2) := EvalAll(p, ids[1..], left, s1);
          if vs.Ok? {
            assert ThingsOf([v.value] + vs.value) == [ThingOf(v.value)] + ThingsOf(vs.value);
          }
        }
      }
    }
  }

  lemma {:induction false} AllCount(p: Program, ids: seq<Id>, left: nat, st: State)
    ensures EvalAll(p, ids, left, st).0.Ok? ==> |EvalAll(p, ids, left, st).0.value| == |ids|
    decreases |ids|
  {
    hide EvalId;
    if ids != [] {
      AllCount(p, ids[1..], left, EvalId(p, ids[0], left, st).1);
    }
  }

  lemma PushIs(st: State)
    ensures ScopesOf(PushScope(st).env) == ScopesOf(st.env) + [map[]]
  {
  }

  lemma PopIs(st: State)
    ensures ScopesOf(st.env) == [] ==> st.env == []
    ensures ScopesOf(st.env) != [] ==> ScopesOf(PopScope(st).env) == ScopesOf(st.env)[..|ScopesOf(st.env)| - 1]
  {
  }

  lemma NoTail(p: Program, left: nat, st: State)
    ensures EvalMaybe(p, None, left, st) == Ok1(UnitV, st) && ThingOf(UnitV) == Nil
  {
  }

  lemma {:induction false} BlockAgrees(p: Program, id: Id, left: nat, st: State)
    requires st.control.None? && At(p, id).Block?
    ensures Agrees(EvalControl(p, At(p, id), left, st), Means(p, id, left + 1, ScopesOf(st.env)))
    decreases left, 3, 0
  {
    hide EvalAll, EvalMaybe, ScopesOf, ThingOf, AllMean, ThingsOf;
    var e := At(p, id);
    assert EvalControl(p, e, left, st) == EvalBlock(p, e.stmts, e.tail, left, st);
    PushIs(st);
    AllAgree(p, e.stmts, left, PushScope(st));
    var (vs, s1) := EvalAll(p, e.stmts, left, PushScope(st));
    if vs.Ok? && !AllMean(p, e.stmts, left, ScopesOf(PushScope(st).env)).AllOff? {
      if AllMean(p, e.stmts, left, ScopesOf(PushScope(st).env)).GiveAll? {
        MaybeAgrees(p, e.tail, left, s1);
        PopIs(EvalMaybe(p, e.tail, left, s1).1);
      } else {
        NoTail(p, left, s1);
        PopIs(s1);
      }
    }
  }

  lemma {:induction false} BindingAgrees(p: Program, id: Id, left: nat, st: State)
    requires st.control.None? && (At(p, id).Let? || At(p, id).Assign?)
    ensures Agrees(EvalControl(p, At(p, id), left, st), Means(p, id, left + 1, ScopesOf(st.env)))
    decreases left, 3, 0
  {
    hide EvalId, ScopesOf, AssignName, BoundOutside, Declare, AssignMeans;
    var e := At(p, id);
    var from := if e.Let? then e.init else e.rhs;
    var (v, s1) := EvalId(p, from, left, st);
    IdAgrees(p, from, left, st);
    if v.Ok? {
      if e.Let? && e.pat.PBinding? {
        AssignIs(s1.env, e.pat.name, v.value);
      } else if e.Assign? {
        AssignMeansIs(At(p, e.lhs), v.value, s1.env);
      }
    }
  }

  lemma AssignMeansIs(target: Expr, v: Value, env: Env)
    ensures var m := AssignMeans(target, ThingOf(v), ScopesOf(env));
            m.Off? || (target.Path? && |target.segments| == 1
                       && m == Gives(Nil, ScopesOf(AssignName(env, target.segments[0], v))))
  {
    hide ScopesOf, ThingOf, AssignName, With;
    if target.Path? && |target.segments| == 1 {
      var name := target.segments[0];
      AssignIs(env, name, v);
      if k: nat :| Innermost(ScopesOf(env), name, k) {
        assert forall j: nat :: Innermost(ScopesOf(env), name, j) ==> j == k;
      }
    }
  }

  lemma {:induction false} WhileAgrees(p: Program, id: Id, left: nat, st: State)
    requires st.control.None? && At(p, id).While?
    ensures Agrees(EvalControl(p, At(p, id), left, st), Means(p, id, left + 1, ScopesOf(st.env)))
    decreases left, 3, 0
  {
    hide EvalWhile, LoopMeans, ScopesOf;
    LoopAgrees(p, At(p, id).cond, At(p, id).body, MAX_ITERS, left, st);
  }

  lemma {:induction false} LoopAgrees(p: Program, cond: Id, body: Id, turns: nat, left: nat, st: State)
    requires st.control.None?
    ensures Agrees(EvalWhile(p, cond, body, turns, left, st), LoopMeans(p, cond, body, turns, left, ScopesOf(st.env)))
    decreases left, 2, turns
  {
    hide EvalId, ScopesOf;
    if turns > 0 {
      var (c, s1) := EvalId(p, cond, left, st);
      IdAgrees(p, cond, left, st);
      if c.Ok? && c.value == BoolV(true) && Means(p, cond, left, ScopesOf(st.env)).Gives? {
        var (r, s2) := EvalId(p, body, left, s1);
        IdAgrees(p, body, left, s1);
        if r.Ok? && AfterTurn(Means(p, body, left, ScopesOf(s1.env))).GoOn? {
          LoopAgrees(p, cond, body, turns - 1, left, s2.(control := None));
        }
      }
    }
  }

  lemma LoopIs(p: Program, id: Id, left: nat, st: State)
    requires At(p, id).Loop?
    ensures EvalControl(p, At(p, id), left, st) == EvalLoop(p, At(p, id).body, MAX_ITERS, left, st)
    ensures Means(p, id, left + 1, ScopesOf(st.env)) ==
            RepeatMeans(p, At(p, id).body, MAX_ITERS, left, ScopesOf(st.env))
  {
    hide EvalLoop, RepeatMeans, ScopesOf;
  }

  lemma {:induction false} RepeatAgrees(p: Program, body: Id, turns: nat, left: nat, st: State)
    requires st.control.None?
    ensures Agrees(EvalLoop(p, body, turns, left, st), RepeatMeans(p, body, turns, left, ScopesOf(st.env)))
    decreases left, 2, turns
  {
    hide EvalId, ScopesOf;
    if turns > 0 {
      var (r, s1) := EvalId(p, body, left, st);
      IdAgrees(p, body, left, st);
      if r.Ok? && AfterTurn(Means(p, body, left, ScopesOf(st.env))).GoOn? {
        RepeatAgrees(p, body, turns - 1, left, s1.(control := None));
      }
    }
  }

  lemma {:induction false} LeaveAgrees(p: Program, id: Id, left: nat, st: State)
    requires st.control.None? && (At(p, id).Return? || At(p, id).Break? || At(p, id).Continue?)
    ensures Agrees(EvalControl(p, At(p, id), left, st), Means(p, id, left + 1, ScopesOf(st.env)))
    decreases left, 3, 0
  {
    hide EvalId, ScopesOf;
    var e := At(p, id);
    if e.Return? {
      MaybeAgrees(p, e.value, left, st);
    }
  }

  /**
  Unless an expression leaves what the meaning covers: evaluation succeeds if and only if it has a meaning,
  and then gives exactly the value that is meant and leaves the names in scope as meant.
  */
  lemma EvaluateMeans(p: Program, id: Id, st: State)
    requires st.control.None?
    ensures var m, o := Means(p, id, 128, ScopesOf(st.env)), Evaluate(p, id, st);
            || m.Off?
            || ((o.0.Ok? <==> !m.Stuck?) &&
                (o.0.Ok? ==> m.thing == ThingOf(o.0.value) && m.scopes == ScopesOf(o.1.env)))
  {
    hide EvalId, Means;
    IdAgrees(p, id, 128, st);
  }

  // ----- where the evaluator is off -----

  function Arena(exprs: seq<Expr>, p: Program): Program {
    p.(exprs := exprs)
  }

  lemma LiteralEvaluates(p: Program, id: Id, left: nat, st: State)
    requires At(p, id).Literal?
    ensures EvalId(p, id, left + 1, st) == Ok1(LitValue(At(p, id).lit), st)
  {
    Unfold(p, id, left, st);
  }

  function One(): Expr {
    Literal(LInt(1, None))
  }

  function Two(): Expr {
    Literal(LInt(2, None))
  }

  /** `if true { 1 } else { 2 }` is 1. */
  lemma TrueTakesFirst(p: Program, st: State)
    ensures var q := Arena([Literal(LBool(true)), One(), Two(), If(0, 1, Some(2))], p);
            Evaluate(q, 3, st) == (Ok(IntV(1, I32)), st)
  {
    hide EvalId;
    var q := Arena([Literal(LBool(true)), One(), Two(), If(0, 1, Some(2))], p);
    LiteralEvaluates(q, 0, 126, st);
    LiteralEvaluates(q, 1, 126, st);
    assert EvalControl(q, If(0, 1, Some(2)), 127, st) == (Ok(IntV(1, I32)), st);
    Unfold(q, 3, 127, st);
  }

  lemma Unfold(p: Program, id: Id, left: nat, st: State)
    ensures EvalId(p, id, left + 1, st) ==
            if IsControl(At(p, id)) then EvalControl(p, At(p, id), left, st) else EvalOperation(p, At(p, id), left, st)
  {
    hide EvalControl, EvalOperation;
  }

  /** `match 5u8 { 5 => 1, _ => 2 }` is 2: a literal without a suffix has type i32 and equals no u8. */
  lemma LiteralPatternMissed(p: Program, st: State)
    ensures var arms := [Arm(PLiteral(LInt(5, None)), 1), Arm(PWild, 2)];
            var q := Arena([Literal(LUint(5, Some(U8))), One(), Two(), Match(0, arms)], p);
            Evaluate(q, 3, st) == (Ok(IntV(2, I32)), st)
  {
    hide EvalId;
    var arms := [Arm(PLiteral(LInt(5, None)), 1), Arm(PWild, 2)];
    var q := Arena([Literal(LUint(5, Some(U8))), One(), Two(), Match(0, arms)], p);
    LiteralEvaluates(q, 0, 126, st);
    LiteralEvaluates(q, 2, 126, st);
    assert arms[1..] == [Arm(PWild, 2)] && st.(env := st.env) == st;
    assert EvalArms(q, arms[1..], UintV(5, U8), 127, st) == (Ok(IntV(2, I32)), st);
    assert EvalArms(q, arms, UintV(5, U8), 127, st) == (Ok(IntV(2, I32)), st);
    assert EvalControl(q, Match(0, arms), 127, st) == (Ok(IntV(2, I32)), st);
    Unfold(q, 3, 127, st);
  }

  /** After a `break` or `continue` the rest of the block runs, signal raised, as if that were not there. */
  lemma BreakRunsOn(p: Program, k: Id, rest: seq<Id>, tail: Option<Id>, left: nat, st: State)
    requires At(p, k).Break? || At(p, k).Continue?
    ensures var raised := st.(control := Some(if At(p, k).Break? then BreakOut else ContinueOn));
            EvalBlock(p, [k] + rest, tail, left + 1, st) == EvalBlock(p, rest, tail, left + 1, raised)
  {
    hide EvalId, EvalMaybe;
    var raised := st.(control := Some(if At(p, k).Break? then BreakOut else ContinueOn));
    Unfold(p, k, left, PushScope(st));
    assert ([k] + rest)[1..] == rest && PushScope(raised) == PushScope(st).(control := raised.control);
  }

  /** After a `return` the rest of the block runs, and gives the value, as if that were not there. */
  lemma ReturnRunsOn(p: Program, k: Id, rest: seq<Id>, tail: Option<Id>, left: nat, st: State)
    requires At(p, k).Return? && At(p, k).value.None?
    ensures EvalBlock(p, [k] + rest, tail, left + 1, st) == EvalBlock(p, rest, tail, left + 1, st)
  {
    hide EvalId, EvalMaybe;
    Unfold(p, k, left, PushScope(st));
    NoTail(p, left, PushScope(st));
    assert ([k] + rest)[1..] == rest;
  }

  /** `{ return 1; 2 }` is 2. */
  lemma ReturnIgnored(p: Program, st: State)
    ensures Evaluate(Arena([One(), Return(Some(0)), Two(), Block([1], Some(2))], p), 3, st) == (Ok(IntV(2, I32)), st)
  {
    hide EvalId;
    var q := Arena([One(), Return(Some(0)), Two(), Block([1], Some(2))], p);
    LiteralEvaluates(q, 0, 125, PushScope(st));
    LiteralEvaluates(q, 2, 126, PushScope(st));
    Unfold(q, 1, 126, PushScope(st));
    assert [1][1..] == [] && EvalAll(q, [], 127, PushScope(st)) == (Ok([]), PushScope(st));
    assert PopScope(PushScope(st)) == st;
    Unfold(q, 3, 127, st);
  }

  function Shadowing(p: Program, x: Name): Program {
    Arena([One(), Let(PBinding(x), 0), Two(), Let(PBinding(x), 2), Block([3], None), Path([x]),
           Block([1, 4], Some(5))], p)
  }

  lemma ShadowingParts(p: Program, x: Name)
    ensures var q := Shadowing(p, x);
            && At(q, 0) == One() && At(q, 1) == Let(PBinding(x), 0) && At(q, 2) == Two()
            && At(q, 3) == Let(PBinding(x), 2) && At(q, 4) == Block([3], None) && At(q, 5) == Path([x])
            && At(q, 6) == Block([1, 4], Some(5)) && q.fnDefs == p.fnDefs
  {
  }

  lemma ShadowingScopes(x: Name, v: Value, w: Value, st: State)
    requires st.env == []
    ensures var s1, s2 := st.(env := [map[x := v]]), st.(env := [map[x := w]]);
            && AssignName(PushScope(st).env, x, v) == s1.env
            && AssignName(PushScope(s1).env, x, w) == PushScope(s2).env && PopScope(s2) == st
  {
    hide AssignName;
    var outer: Env := [map[]];
    assert PushScope(st).env == outer;
    Fresh(x, v);
    Overwritten(x, v, w);
  }

  /** `{ let x = 1; { let x = 2; }; x }` is 2: a `let` assigns to a name that an enclosing scope has. */
  lemma LetOverwrites(p: Program, x: Name, st: State)
    requires x !in p.fnDefs && st.env == []
    ensures Evaluate(Shadowing(p, x), 6, st) == (Ok(IntV(2, I32)), st)
  {
    hide EvalId, AssignName, Evaluate, Shadowing, At;
    var q, one, two := Shadowing(p, x), IntV(1, I32), IntV(2, I32);
    var s1, s2 := st.(env := [map[x := one]]), st.(env := [map[x := two]]);
    ShadowingParts(p, x);
    ShadowingScopes(x, one, two, st);
    LetRuns(q, 1, 0, x, one, 125, PushScope(st), s1);
    LetRuns(q, 3, 2, x, two, 124, PushScope(s1), PushScope(s2));
    InnerBlock(q, s1, s2);
    LastName(q, x, s2);
    OuterBlock(q, st, s1, s2, two);
  }

  lemma OuterBlock(p: Program, st: State, s1: State, s2: State, v: Value)
    requires At(p, 6) == Block([1, 4], Some(5)) && EvalId(p, 1, 127, PushScope(st)) == (Ok(UnitV), s1)
    requires EvalId(p, 4, 127, s1) == (Ok(UnitV), s2) && EvalId(p, 5, 127, s2) == (Ok(v), s2)
    ensures Evaluate(p, 6, st) == (Ok(v), PopScope(s2))
  {
    hide EvalId, EvalAll;
    AllOfTwo(p, 1, 4, 127, PushScope(st), s1, s2);
    Unfold(p, 6, 127, st);
  }

  lemma AllOfTwo(p: Program, a: Id, b: Id, left: nat, st: State, s1: State, s2: State)
    requires EvalId(p, a, left, st) == (Ok(UnitV), s1) && EvalId(p, b, left, s1) == (Ok(UnitV), s2)
    ensures EvalAll(p, [a, b], left, st) == (Ok([UnitV, UnitV]), s2)
  {
    hide EvalId;
    var ids, none: seq<Value> := [a, b], [];
    assert ids[1..] == [b] && ids[1..][1..] == [] && [UnitV] + none == [UnitV] && [UnitV] + [UnitV] == [UnitV, UnitV];
    assert EvalAll(p, ids[1..][1..], left, s2) == (Ok(none), s2);
    assert EvalAll(p, ids[1..], left, s1) == (Ok([UnitV]), s2);
  }

  lemma LetRuns(p: Program, id: Id, init: Id, x: Name, v: Value, left: nat, st: State, after: State)
    requires At(p, id) == Let(PBinding(x), init) && At(p, init).Literal? && LitValue(At(p, init).lit) == v
    requires AssignName(st.env, x, v) == after.env && after.control == st.control
    ensures EvalId(p, id, left + 2, st) == (Ok(UnitV), after)
  {
    hide EvalId, AssignName;
    LiteralEvaluates(p, init, left, st);
    Unfold(p, id, left + 1, st);
  }

  lemma Fresh(x: Name, v: Value)
    ensures AssignName([map[]], x, v) == [map[x := v]]
  {
    var env: Env := [map[]];
    assert env[..0] == [] && ScopeOf([], x) == None;
    assert Put(env[0], x, v) == map[x := v];
  }

  lemma Overwritten(x: Name, v: Value, w: Value)
    ensures AssignName([map[x := v]] + [map[]], x, w) == [map[x := w]] + [map[]]
  {
    var env: Env := [map[x := v]] + [map[]];
    assert env[..1] == [map[x := v]] && ScopeOf(env[..1], x) == Some(0);
    assert Put(env[0], x, w) == map[x := w];
  }

  lemma InnerBlock(p: Program, s1: State, s2: State)
    requires At(p, 4) == Block([3], None) && EvalId(p, 3, 126, PushScope(s1)) == (Ok(UnitV), PushScope(s2))
    requires s1.control == s2.control
    ensures EvalId(p, 4, 127, s1) == (Ok(UnitV), s2)
  {
    hide EvalId;
    assert [3][1..] == [] && EvalAll(p, [], 126, PushScope(s2)) == (Ok([]), PushScope(s2));
    Unfold(p, 4, 126, s1);
  }

  lemma LastName(p: Program, x: Name, st: State)
    requires At(p, 5) == Path([x]) && x !in p.fnDefs && |st.env| == 1 && x in st.env[0]
    ensures EvalId(p, 5, 127, st) == (Ok(st.env[0][x]), st)
  {
    Unfold(p, 5, 126, st);
  }
}
