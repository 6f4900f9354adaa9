/** The constant evaluator (crates/glyim-const-eval/src/eval.rs): the reference recursion and the evaluator itself. */
module ConstEval {
  import opened ConstValue
  import opened Wrappers

  const MAX_EVAL_DEPTH: nat := 128
  const MAX_ITERS: nat := 1_000_000

  datatype BinOp = Arith(op: ArithOp) | Eq | Ne | Lt | Gt | LtEq | GtEq | And | Or | Bitwise(code: nat)

  datatype UnOp = Not | Neg | Deref

  datatype Lit =
    | LInt(i: int, ity: Option<IntTy>)
    | LUint(u: int, uty: Option<UintTy>)
    | LBool(b: bool)
    | LChar(c: nat)
    | LString(name: Name)
    | LUnit

  datatype Pat =
    | PWild
    | PLiteral(lit: Lit)
    | POr(alts: seq<Pat>)
    | PTuple(parts: seq<Pat>)
    | PBinding(name: Name)
    | PStruct(fields: seq<FieldPat>)
    | PPath(single: Option<Name>)
    | PSlice(parts: seq<Pat>)
    | PRange(start: Option<Lit>, end: Option<Lit>, inclusive: bool)
    | PErr

  datatype FieldPat = FieldPat(name: Name, pat: Pat)

  type Id = nat

  /** Expressions refer to each other by position in the arena, cycles included. */
  datatype Expr =
    | Literal(lit: Lit)
    | Binary(binop: BinOp, lhs: Id, rhs: Id)
    | Unary(unop: UnOp, operand: Id)
    | If(cond: Id, thn: Id, els: Option<Id>)
    | Match(scrutinee: Id, arms: seq<Arm>)
    | Block(stmts: seq<Id>, tail: Option<Id>)
    | Tuple(elems: seq<Id>)
    | Path(segments: seq<Name>)
    | Field(recv: Id, field: Name)
    | Index(base: Id, index: Id)
    | Array(elems: seq<Id>)
    | Struct(inits: seq<FieldInit>)
    | Cast(operand: Id, target: CastTarget)
    | Ref(operand: Id)
    | Assign(lhs: Id, rhs: Id)
    | Let(pat: Pat, init: Id)
    | Call(func: Id, args: seq<Id>)
    | MethodCall(recv: Id, method': Name, args: seq<Id>)
    | Return(value: Option<Id>)
    | Break
    | Continue
    | Closure(params: seq<Pat>, body: Id)
    | Range(start: Option<Id>, end: Option<Id>, inclusive: bool)
    | While(cond: Id, body: Id)
    | Loop(body: Id)
    | For(pat: Pat, iterable: Id, body: Id)
    | Missing

  datatype Arm = Arm(pat: Pat, body: Id)

  datatype FieldInit = FieldInit(name: Name, init: Id)

  datatype BodyFn = BodyFn(params: seq<Pat>, body: Id)

  /** Operators, builtins and type lookups whose definition is not modelled. */
  datatype Host = Host(
    bitwise: (nat, Value, Value) -> Option<Value>,
    notInt: Value -> Option<Value>,
    known: Name -> bool,
    builtin: (Name, seq<Value>) -> Option<Value>,
    variant: (Name, Name) -> Option<Value>,
    unitStruct: Name -> Option<Value>)

  datatype Program = Program(
    exprs: seq<Expr>, constFns: map<Name, BodyFn>, fnDefs: map<Name, nat>, pointerWidth: nat, host: Host)

  datatype Failure =
    | DepthLimit | IterationLimit | Overflow | DivisionByZero | Mismatch | Unsupported | Unbound | OutOfBounds
    | NoMatch

  datatype Control = BreakOut | ContinueOn

  type Env = seq<map<Name, Value>>

  datatype State = State(env: Env, control: Option<Control>)

  type Outcome = (Result<Value, Failure>, State)

  /** An id outside the arena, which the evaluator would panic on, reads as a missing expression. */
  function At(p: Program, id: Id): Expr {
    if id < |p.exprs| then p.exprs[id] else Missing
  }

  // ----- names -----

  function Lookup(env: Env, name: Name): Option<Value> {
    if env == [] then None
    else if name in env[|env| - 1] then Some(env[|env| - 1][name])
    else Lookup(env[..|env| - 1], name)
  }

  /** The innermost scope that has the name takes the value; a new name goes into the innermost scope. */
  function ScopeOf(env: Env, name: Name): Option<nat> {
    if env == [] then None
    else if name in env[|env| - 1] then Some(|env| - 1)
    else ScopeOf(env[..|env| - 1], name)
  }

  function Put(scope: map<Name, Value>, name: Name, v: Value): map<Name, Value> {
    scope[name := v]
  }

  function Bind(env: Env, name: Name, v: Value): Env {
    if env == [] then env else env[|env| - 1 := Put(env[|env| - 1], name, v)]
  }

  function AssignName(env: Env, name: Name, v: Value): Env {
    var k := ScopeOf(env, name);
    if k.Some? && k.value < |env| then env[k.value := Put(env[k.value], name, v)] else Bind(env, name, v)
  }

  // ----- operators -----

  function LitValue(l: Lit): Value {
    match l
    case LInt(i, t) => IntV(i, if t.Some? then t.value else I32)
    case LUint(u, t) => UintV(u, if t.Some? then t.value else U32)
    case LBool(b) => BoolV(b)
    case LChar(c) => CharV(c)
    case LString(name) => StringV(name)
    case LUnit => UnitV
  }

  function ApplyArith(op: ArithOp, x: Value, y: Value, pointerWidth: nat): Result<Value, Failure> {
    if (op == Div || op == Rem) && ((x.IntV? && y.IntV? && y.i == 0) || (x.UintV? && y.UintV? && y.u == 0)) then
      Err(DivisionByZero)
    else
      var r := CheckedOp(op, x, y);
      if r.None? || ValidateRange(r.value, pointerWidth).None? then Err(Overflow) else Ok(r.value)
  }

  function CompareEq(x: Value, y: Value): bool {
    || (x.IntV? && y.IntV? && x.i == y.i)
    || (x.UintV? && y.UintV? && x.u == y.u)
    || (x.BoolV? && y.BoolV? && x.b == y.b)
    || (x.CharV? && y.CharV? && x.c == y.c)
    || (x.UnitV? && y.UnitV?)
  }

  function CompareLt(x: Value, y: Value): Result<bool, Failure> {
    if x.IntV? && y.IntV? then Ok(x.i < y.i)
    else if x.UintV? && y.UintV? then Ok(x.u < y.u)
    else if x.CharV? && y.CharV? then Ok(x.c < y.c)
    else Err(Mismatch)
  }

  function BoolResult(r: Result<bool, Failure>, flip: bool): Result<Value, Failure> {
    if r.Ok? then Ok(BoolV(r.value != flip)) else Err(r.error)
  }

  /** Both operands have been evaluated; the second is not looked at when the first decides. */
  function Logical(x: Value, y: Value, decides: bool): Result<Value, Failure> {
    if !x.BoolV? then Err(Mismatch)
    else if x.b == decides then Ok(BoolV(decides))
    else if y.BoolV? then Ok(y)
    else Err(Mismatch)
  }

  function FromOption(r: Option<Value>): Result<Value, Failure> {
    if r.Some? then Ok(r.value) else Err(Unsupported)
  }

  function ApplyBinOp(p: Program, op: BinOp, x: Value, y: Value): Result<Value, Failure> {
    match op
    case Arith(a) => ApplyArith(a, x, y, p.pointerWidth)
    case Eq => Ok(BoolV(CompareEq(x, y)))
    case Ne => Ok(BoolV(!CompareEq(x, y)))
    case Lt => BoolResult(CompareLt(x, y), false)
    case Gt => BoolResult(CompareLt(y, x), false)
    case LtEq => BoolResult(CompareLt(y, x), true)
    case GtEq => BoolResult(CompareLt(x, y), true)
    case And => Logical(x, y, false)
    case Or => Logical(x, y, true)
    case Bitwise(code) => FromOption(p.host.bitwise(code, x, y))
  }

  function ApplyUnOp(p: Program, op: UnOp, x: Value): Result<Value, Failure> {
    match op
    case Not => if x.BoolV? then Ok(BoolV(!x.b)) else FromOption(p.host.notInt(x))
    case Neg =>
      var r := CheckedNeg(x);
      if r.None? || ValidateRange(r.value, p.pointerWidth).None? then Err(Overflow) else Ok(r.value)
    case Deref => Err(Unsupported)
  }

  function FieldOf(v: Value, name: Name): Result<Value, Failure> {
    if !v.StructV? then Err(Mismatch)
    else
      var found := FindField(v.fields, name);
      if found.Some? then Ok(found.value) else Err(Unbound)
  }

  function FindField(fields: seq<FieldValue>, name: Name): Option<Value> {
    if fields == [] then None
    else if fields[0].name == name then Some(fields[0].value)
    else FindField(fields[1..], name)
  }

  function ElementAt(v: Value, index: Value): Result<Value, Failure> {
    var k := AsU128(index);
    if k.None? then Err(Mismatch)
    else if k.value >= 0x1_0000_0000_0000_0000 then Err(OutOfBounds)
    else if !v.ArrayV? && !v.TupleV? then Err(Mismatch)
    else if 0 <= k.value < |v.elems| then Ok(v.elems[k.value])
    else Err(OutOfBounds)
  }

  // ----- patterns -----

  datatype PatOutcome = PatOutcome(result: Result<bool, Failure>, env: Env)

  /** Matching binds names in the innermost scope as it goes, also when it fails later on. */
  function Matches(pat: Pat, v: Value, env: Env): PatOutcome
    decreases pat, 0
  {
    match pat
    case PWild => PatOutcome(Ok(true), env)
    case PLiteral(l) => PatOutcome(Ok(LitValue(l) == v), env)
    case POr(alts) => MatchesAny(alts, v, env)
    case PTuple(parts) =>
      if v.TupleV? && |parts| == |v.elems| then MatchesAll(parts, v.elems, env) else PatOutcome(Ok(false), env)
    case PBinding(name) => PatOutcome(Ok(true), Bind(env, name, v))
    case PStruct(fields) =>
      if v.StructV? && |fields| == |v.fields| then MatchesFields(fields, v.fields, env) else PatOutcome(Ok(false), env)
    case PPath(single) =>
      PatOutcome(Ok(single.Some? && Lookup(env, single.value) == Some(v)), env)
    case PSlice(parts) =>
      if v.ArrayV? && |parts| == |v.elems| then MatchesAll(parts, v.elems, env) else PatOutcome(Ok(false), env)
    case PRange(start, end, inclusive) => PatOutcome(InPatRange(v, start, end, inclusive), env)
    case PErr => PatOutcome(Ok(false), env)
  }

  function MatchesAny(alts: seq<Pat>, v: Value, env: Env): PatOutcome
    decreases alts, 1
  {
    if alts == [] then PatOutcome(Ok(false), env)
    else
      var first := Matches(alts[0], v, env);
      if first.result.Err? || first.result.value then first else MatchesAny(alts[1..], v, first.env)
  }

  function MatchesAll(parts: seq<Pat>, vs: seq<Value>, env: Env): PatOutcome
    decreases parts, 1
  {
    if parts == [] || vs == [] then PatOutcome(Ok(true), env)
    else
      var first := Matches(parts[0], vs[0], env);
      if first.result.Err? || !first.result.value then first else MatchesAll(parts[1..], vs[1..], first.env)
  }

  function MatchesFields(fields: seq<FieldPat>, vs: seq<FieldValue>, env: Env): PatOutcome
    decreases fields, 1
  {
    if fields == [] then PatOutcome(Ok(true), env)
    else
      var v := FindField(vs, fields[0].name);
      if v.None? then PatOutcome(Ok(false), env)
      else
        var f := fields[0];
        assert f.pat < f;
        var first := Matches(f.pat, v.value, env);
        if first.result.Err? || !first.result.value then first else MatchesFields(fields[1..], vs, first.env)
  }

  /** Open-ended range patterns match nothing. */
  function InPatRange(v: Value, start: Option<Lit>, end: Option<Lit>, inclusive: bool): Result<bool, Failure> {
    if start.None? || end.None? then Ok(false)
    else
      var below := CompareLt(v, LitValue(start.value));
      if below.Err? then below
      else
        var upper := if inclusive then CompareLt(LitValue(end.value), v) else CompareLt(v, LitValue(end.value));
        if upper.Err? then upper else Ok(!below.value && (upper.value != inclusive))
  }

  // ----- iteration -----

  /** The elements of a range carry the type of its start. */
  function Counted(i: int, proto: Value): Value {
    if proto.IntV? then IntV(i, proto.ity)
    else if proto.UintV? then UintV(i % TWO_128, proto.uty)
    else IntV(i, I32)
  }

  /** Numbers from `from` while below `end` (or not above it), at most `budget` and one more. */
  function CountUp(from: int, end: int, inclusive: bool, proto: Value, budget: nat): seq<Value>
    decreases budget
  {
    if (if inclusive then from > end else from >= end) then []
    else if budget == 0 then [Counted(from, proto)]
    else
      [Counted(from, proto)]
      + CountUp(if from + 1 < TWO_127 then from + 1 else from, end, inclusive, proto, budget - 1)
  }

  function Elements(v: Value): Result<seq<Value>, Failure> {
    match v
    case RangeV(start, end, inclusive) =>
      if start.None? || end.None? || AsI128(start.value).None? || AsI128(end.value).None? then Err(Mismatch)
      else Ok(CountUp(AsI128(start.value).value, AsI128(end.value).value, inclusive, start.value, MAX_ITERS))
    case ArrayV(elems) => Ok(elems)
    case TupleV(elems) => Ok(elems)
    case _ => Err(Unsupported)
  }

  // ----- evaluation: `left` is how many levels of depth remain -----

  function Ok1(v: Value, st: State): Outcome {
    (Ok(v), st)
  }

  function Fail(e: Failure, st: State): Outcome {
    (Err(e), st)
  }

  function PushScope(st: State): State {
    st.(env := st.env + [map[]])
  }

  function PopScope(st: State): State {
    if st.env == [] then st else st.(env := st.env[..|st.env| - 1])
  }

  function EvalId(p: Program, id: Id, left: nat, st: State): Outcome
    decreases left, 1, 0
  {
    EvalExpr(p, At(p, id), left, st)
  }

  predicate IsControl(e: Expr) {
    || e.If? || e.Match? || e.Block? || e.Assign? || e.Let? || e.Call? || e.MethodCall? || e.Return? || e.Break?
    || e.Continue? || e.While? || e.Loop? || e.For?
  }

  function EvalExpr(p: Program, e: Expr, left: nat, st: State): Outcome
    decreases left, 0, 0
  {
    if left == 0 then Fail(DepthLimit, st)
    else if IsControl(e) then EvalControl(p, e, left - 1, st)
    else EvalOperation(p, e, left - 1, st)
  }

  function EvalOperation(p: Program, e: Expr, left: nat, st: State): Outcome
    requires !IsControl(e)
    decreases left, 6, 0
  {
    match e
    case Literal(l) => Ok1(LitValue(l), st)
    case Binary(op, lhs, rhs) =>
      var (x, s1) := EvalId(p, lhs, left, st);
      if x.Err? then (x, s1)
      else
        var (y, s2) := EvalId(p, rhs, left, s1);
        if y.Err? then (y, s2) else (ApplyBinOp(p, op, x.value, y.value), s2)
    case Unary(op, operand) =>
      var (x, s1) := EvalId(p, operand, left, st);
      if x.Err? then (x, s1) else (ApplyUnOp(p, op, x.value), s1)
    case Tuple(elems) =>
      if elems == [] then Ok1(UnitV, st)
      else
        var (vs, s1) := EvalAll(p, elems, left, st);
        if vs.Err? then Fail(vs.error, s1) else Ok1(TupleV(vs.value), s1)
    case Path(segments) => (EvalPath(p, segments, st.env), st)
    case Field(recv, field) =>
      var (v, s1) := EvalId(p, recv, left, st);
      if v.Err? then (v, s1) else (FieldOf(v.value, field), s1)
    case Index(base, index) =>
      var (b, s1) := EvalId(p, base, left, st);
      if b.Err? then (b, s1)
      else
        var (k, s2) := EvalId(p, index, left, s1);
        if k.Err? then (k, s2) else (ElementAt(b.value, k.value), s2)
    case Array(elems) =>
      var (vs, s1) := EvalAll(p, elems, left, st);
      if vs.Err? then Fail(vs.error, s1) else Ok1(ArrayV(vs.value), s1)
    case Struct(inits) =>
      var (vs, s1) := EvalAll(p, InitIds(inits), left, st);
      if vs.Err? then Fail(vs.error, s1) else Ok1(StructV(Named(inits, vs.value)), s1)
    case Cast(operand, target) =>
      var (v, s1) := EvalId(p, operand, left, st);
      if v.Err? then (v, s1) else (FromOption(CastTo(v.value, target)), s1)
    case Ref(operand) => EvalId(p, operand, left, st)
    case Closure(_, _) => Fail(Unsupported, st)
    case Range(start, end, inclusive) =>
      var (a, s1) := EvalBound(p, start, left, st);
      if a.Err? then Fail(a.error, s1)
      else
        var (b, s2) := EvalBound(p, end, left, s1);
        if b.Err? then Fail(b.error, s2) else Ok1(RangeV(a.value, b.value, inclusive), s2)
    case Missing => Fail(Unsupported, st)
  }

  function EvalControl(p: Program, e: Expr, left: nat, st: State): Outcome
    requires IsControl(e)
    decreases left, 6, 0
  {
    match e
    case If(cond, thn, els) =>
      var (c, s1) := EvalId(p, cond, left, st);
      if c.Err? then (c, s1)
      else if !c.value.BoolV? then Fail(Mismatch, s1)
      else if c.value.b then EvalId(p, thn, left, s1)
      else EvalMaybe(p, els, left, s1)
    case Match(scrutinee, arms) =>
      var (v, s1) := EvalId(p, scrutinee, left, st);
      if v.Err? then (v, s1) else EvalArms(p, arms, v.value, left, s1)
    case Block(stmts, tail) => EvalBlock(p, stmts, tail, left, st)
    case Assign(lhs, rhs) =>
      var (v, s1) := EvalId(p, rhs, left, st);
      if v.Err? then (v, s1)
      else if At(p, lhs).Path? && |At(p, lhs).segments| == 1 then
        Ok1(UnitV, s1.(env := AssignName(s1.env, At(p, lhs).segments[0], v.value)))
      else Fail(Unsupported, s1)
    case Let(pat, init) =>
      var (v, s1) := EvalId(p, init, left, st);
      if v.Err? then (v, s1)
      else Ok1(UnitV, if pat.PBinding? then s1.(env := AssignName(s1.env, pat.name, v.value)) else s1)
    case Call(func, args) => EvalCall(p, At(p, func), args, left, st)
    case MethodCall(recv, name, args) =>
      var (v, s1) := EvalId(p, recv, left, st);
      if v.Err? then (v, s1)
      else if !p.host.known(name) then Fail(Unsupported, s1)
      else
        var (vs, s2) := EvalAll(p, args, left, s1);
        if vs.Err? then Fail(vs.error, s2) else (FromOption(p.host.builtin(name, [v.value] + vs.value)), s2)
    case Return(value) => EvalMaybe(p, value, left, st)
    case Break => Ok1(UnitV, st.(control := Some(BreakOut)))
    case Continue => Ok1(UnitV, st.(control := Some(ContinueOn)))
    case While(cond, body) => EvalWhile(p, cond, body, MAX_ITERS, left, st)
    case Loop(body) => EvalLoop(p, body, MAX_ITERS, left, st)
    case For(pat, iterable, body) =>
      var (v, s1) := EvalId(p, iterable, left, st);
      if v.Err? then (v, s1)
      else
        var elems := Elements(v.value);
        if elems.Err? then Fail(elems.error, s1) else EvalFor(p, pat, elems.value, body, left, s1)
  }

  /** Nothing to evaluate gives unit. */
  function EvalMaybe(p: Program, id: Option<Id>, left: nat, st: State): Outcome
    decreases left, 2, 0
  {
    if id.Some? then EvalId(p, id.value, left, st) else Ok1(UnitV, st)
  }

  function EvalBound(p: Program, id: Option<Id>, left: nat, st: State): (Result<Option<Value>, Failure>, State)
    decreases left, 2, 0
  {
    if id.None? then (Ok(None), st)
    else
      var (v, s1) := EvalId(p, id.value, left, st);
      (if v.Err? then Err(v.error) else Ok(Some(v.value)), s1)
  }

  function EvalPath(p: Program, segments: seq<Name>, env: Env): Result<Value, Failure> {
    if |segments| == 2 && p.host.variant(segments[0], segments[1]).Some? then
      Ok(p.host.variant(segments[0], segments[1]).value)
    else if |segments| != 1 then Err(Unbound)
    else if segments[0] in p.fnDefs then Ok(FnV(p.fnDefs[segments[0]]))
    else if Lookup(env, segments[0]).Some? then Ok(Lookup(env, segments[0]).value)
    else if p.host.unitStruct(segments[0]).Some? then Ok(p.host.unitStruct(segments[0]).value)
    else Err(Unbound)
  }

  function InitIds(inits: seq<FieldInit>): (r: seq<Id>)
    ensures |r| == |inits|
  {
    seq(|inits|, k requires 0 <= k < |inits| => inits[k].init)
  }

  function Named(inits: seq<FieldInit>, vs: seq<Value>): seq<FieldValue> {
    if |vs| != |inits| then []
    else seq(|vs|, k requires 0 <= k < |vs| => FieldValue(inits[k].name, vs[k]))
  }

  function EvalAll(p: Program, ids: seq<Id>, left: nat, st: State): (Result<seq<Value>, Failure>, State)
    decreases left, 3, |ids|
  {
    if ids == [] then (Ok([]), st)
    else
      var (v, s1) := EvalId(p, ids[0], left, st);
      if v.Err? then (Err(v.error), s1)
      else
        var (vs, s2) := EvalAll(p, ids[1..], left, s1);
        (if vs.Err? then vs else Ok([v.value] + vs.value), s2)
  }

  function EvalArms(p: Program, arms: seq<Arm>, v: Value, left: nat, st: State): Outcome
    decreases left, 3, |arms|
  {
    if arms == [] then Fail(NoMatch, st)
    else
      var m := Matches(arms[0].pat, v, st.env);
      var s1 := st.(env := m.env);
      if m.result.Err? then Fail(m.result.error, s1)
      else if m.result.value then EvalId(p, arms[0].body, left, s1)
      else EvalArms(p, arms[1..], v, left, s1)
  }

  /** A scope of its own; an error in a statement leaves it on the stack. */
  function EvalBlock(p: Program, stmts: seq<Id>, tail: Option<Id>, left: nat, st: State): Outcome
    decreases left, 4, 0
  {
    var (vs, s1) := EvalAll(p, stmts, left, PushScope(st));
    if vs.Err? then Fail(vs.error, s1)
    else
      var (r, s2) := EvalMaybe(p, tail, left, s1);
      (r, PopScope(s2))
  }

  /** An invoked closure, a registered constant function, or a builtin. */
  function EvalCall(p: Program, callee: Expr, args: seq<Id>, left: nat, st: State): Outcome
    decreases left, 5, 0
  {
    if callee.Closure? then
      if |callee.params| != |args| then Fail(Mismatch, st)
      else
        var (vs, s1) := EvalAll(p, args, left, st);
        if vs.Err? then Fail(vs.error, s1) else BindAndEval(p, callee.params, callee.body, vs.value, left, s1)
    else if !callee.Path? || |callee.segments| != 1 then Fail(Unsupported, st)
    else
      var name := callee.segments[0];
      var (vs, s1) := EvalAll(p, args, left, st);
      if vs.Err? then Fail(vs.error, s1)
      else if name in p.constFns then
        var f := p.constFns[name];
        if |f.params| != |vs.value| then Fail(Mismatch, s1) else BindAndEval(p, f.params, f.body, vs.value, left, s1)
      else (FromOption(p.host.builtin(name, vs.value)), s1)
  }

  /** Parameters are bound in a scope of their own; whether a pattern matched is not asked. */
  function BindAndEval(p: Program, params: seq<Pat>, body: Id, vs: seq<Value>, left: nat, st: State): Outcome
    decreases left, 4, 0
  {
    var bound := BindParams(params, vs, PushScope(st).env);
    var s1 := st.(env := bound.env);
    if bound.result.Err? then Fail(bound.result.error, s1)
    else
      var (r, s2) := EvalId(p, body, left, s1);
      (r, PopScope(s2))
  }

  function BindParams(params: seq<Pat>, vs: seq<Value>, env: Env): PatOutcome {
    if params == [] || vs == [] then PatOutcome(Ok(true), env)
    else
      var first := Matches(params[0], vs[0], env);
      if first.result.Err? then first else BindParams(params[1..], vs[1..], first.env)
  }

  /** What a loop does with the signal its body left: None to go on. */
  function Stops(control: Option<Control>): bool {
    control == Some(BreakOut)
  }

  function EvalWhile(p: Program, cond: Id, body: Id, iters: nat, left: nat, st: State): Outcome
    decreases left, 2, iters
  {
    if iters == 0 then Fail(IterationLimit, st)
    else
      var (c, s1) := EvalId(p, cond, left, st);
      if c.Err? then (c, s1)
      else if !c.value.BoolV? then Fail(Mismatch, s1)
      else if !c.value.b then Ok1(UnitV, s1.(control := None))
      else
        var (r, s2) := EvalId(p, body, left, s1);
        if r.Err? then (r, s2)
        else if Stops(s2.control) then Ok1(UnitV, s2.(control := None))
        else EvalWhile(p, cond, body, iters - 1, left, s2.(control := None))
  }

  function EvalLoop(p: Program, body: Id, iters: nat, left: nat, st: State): Outcome
    decreases left, 2, iters
  {
    if iters == 0 then Fail(IterationLimit, st)
    else
      var (r, s1) := EvalId(p, body, left, st);
      if r.Err? then (r, s1)
      else if Stops(s1.control) then Ok1(UnitV, s1.(control := None))
      else EvalLoop(p, body, iters - 1, left, s1.(control := None))
  }

  /** The pattern is bound in the scope the loop stands in; whether it matched is not asked. */
  function EvalFor(p: Program, pat: Pat, elems: seq<Value>, body: Id, left: nat, st: State): Outcome
    decreases left, 2, |elems|
  {
    if elems == [] then Ok1(UnitV, st)
    else
      var m := Matches(pat, elems[0], st.env);
      if m.result.Err? then Fail(m.result.error, st.(env := m.env))
      else
        var (r, s1) := EvalId(p, body, left, st.(env := m.env));
        if r.Err? then (r, s1)
        else if Stops(s1.control) then Ok1(UnitV, s1.(control := None))
        else EvalFor(p, pat, elems[1..], body, left, s1.(control := None))
  }

  function Evaluate(p: Program, id: Id, st: State): Outcome {
    EvalId(p, id, MAX_EVAL_DEPTH, st)
  }
}
