/**
What slot expressions and handlers do, on owned values: the reference the analysis is measured
against. Operators, calls, methods and patterns are uninterpreted functions of their arguments.
*/
module GsxRun {
  import opened GsxExpr
  import opened Wrappers

  /** `Absent` is what a missing field or element reads as. */
  datatype Value = Atom(lit: Literal) | Record(fields: map<string, Value>) | List(items: seq<Value>) | Absent

  datatype Step = Member(field: string) | Element(i: int)

  type Path = seq<Step>

  function GetStep(v: Value, st: Step): Value {
    match st
    case Member(f) => if v.Record? && f in v.fields then v.fields[f] else Absent
    case Element(i) => if v.List? && 0 <= i < |v.items| then v.items[i] else Absent
  }

  function Get(v: Value, path: Path): Value
    decreases |path|
  {
    if path == [] then v else Get(GetStep(v, path[0]), path[1..])
  }

  /** Replace the value at a path; a path that does not exist changes nothing. */
  function Set(v: Value, path: Path, x: Value): Value
    decreases |path|
  {
    if path == [] then x
    else
      match path[0]
      case Member(f) =>
        if v.Record? && f in v.fields then Record(v.fields[f := Set(v.fields[f], path[1..], x)]) else v
      case Element(i) =>
        if v.List? && 0 <= i < |v.items| then List(v.items[i := Set(v.items[i], path[1..], x)]) else v
  }

  type Bindings = seq<(string, Value)>

  /** The name of the state parameter, and everything the language leaves to the program. */
  datatype Host = Host(
    param: string,
    unary: (UnaryOp, Value) -> Value,
    binary: (BinaryOp, Value, Value) -> Value,
    truthy: Value -> bool,
    index: Value -> int,
    items: Value -> seq<Value>,
    bind: (string, Value) -> Option<Bindings>,
    call: (string, seq<Value>) -> (seq<Value>, Value),
    method': (string, Value, seq<Value>) -> (Value, Value),
    callMutates: string -> bool,
    methodMutates: string -> bool)

  /** The owned state and the local variables in scope, innermost last. */
  datatype Machine = Machine(state: Value, locals: Bindings)

  function Push(m: Machine, bs: Bindings): Machine {
    m.(locals := m.locals + bs)
  }

  function Leave(m: Machine, depth: nat): Machine {
    if depth <= |m.locals| then m.(locals := m.locals[..depth]) else m
  }

  function Lookup(locals: Bindings, name: string): Option<nat> {
    if locals == [] then None
    else if locals[|locals| - 1].0 == name then Some(|locals| - 1)
    else Lookup(locals[..|locals| - 1], name)
  }

  // ----- places at run time -----

  datatype Target = InState(path: Path) | InLocal(slot: nat, path: Path) | Nowhere

  function Below(t: Target, st: Step): Target {
    match t
    case InState(p) => InState(p + [st])
    case InLocal(k, p) => InLocal(k, p + [st])
    case Nowhere => Nowhere
  }

  function Load(m: Machine, t: Target): Value {
    match t
    case InState(p) => Get(m.state, p)
    case InLocal(k, p) => if k < |m.locals| then Get(m.locals[k].1, p) else Absent
    case Nowhere => Absent
  }

  function Store(m: Machine, t: Target, x: Value): Machine {
    match t
    case InState(p) => m.(state := Set(m.state, p, x))
    case InLocal(k, p) =>
      if k < |m.locals| then m.(locals := m.locals[k := (m.locals[k].0, Set(m.locals[k].1, p, x))]) else m
    case Nowhere => m
  }

  function ResolveVar(h: Host, x: string, m: Machine): Target {
    var k := Lookup(m.locals, x);
    if k.Some? then InLocal(k.value, []) else if x == h.param then InState([]) else Nowhere
  }

  /** Where a path expression points; anything else points nowhere. */
  function Resolve(h: Host, e: Expr, m: Machine): Target
    decreases e, 0, 0
  {
    match e
    case Var(x) => ResolveVar(h, x, m)
    case Field(b, f) => Below(Resolve(h, b, m), Member(f))
    case Index(b, i) =>
      var (v, m1) := Run(h, i, m);
      Below(Resolve(h, b, m1), Element(h.index(v)))
    case _ => Nowhere
  }

  /** A mutating call writes the places passed to it, with or without `&mut`. */
  function ResolveArg(h: Host, e: Expr, m: Machine): Target
    decreases e, 1, 0
  {
    if e.Unary? && e.unop == RefMut then Resolve(h, e.inner, m) else Resolve(h, e, m)
  }

  // ----- running -----

  function Run(h: Host, e: Expr, m: Machine): (Value, Machine)
    decreases e, 2, 0
  {
    match e
    case Var(x) => (Load(m, ResolveVar(h, x, m)), m)
    case Lit(v) => (Atom(v), m)
    case Field(b, f) =>
      var (v, m1) := Run(h, b, m);
      (GetStep(v, Member(f)), m1)
    case Index(b, i) =>
      var (iv, m1) := Run(h, i, m);
      var (v, m2) := Run(h, b, m1);
      (GetStep(v, Element(h.index(iv))), m2)
    case Call(name, args) =>
      var (vs, m1) := RunAll(h, args, m);
      var (outs, r) := h.call(name, vs);
      (r, if h.callMutates(name) then StoreArgs(h, args, outs, m1) else m1)
    case Method(recv, name, args) =>
      if h.methodMutates(name) then RunMutator(h, e, m)
      else
        var (v, m1) := Run(h, recv, m);
        var (vs, m2) := RunAll(h, args, m1);
        (h.method'(name, v, vs).1, m2)
    case Unary(op, inner) =>
      var (v, m1) := Run(h, inner, m);
      (h.unary(op, v), m1)
    case Binary(op, l, r) =>
      var (x, m1) := Run(h, l, m);
      if (op == And && !h.truthy(x)) || (op == Or && h.truthy(x)) then (x, m1)
      else
        var (y, m2) := Run(h, r, m1);
        (h.binary(op, x, y), m2)
    case Assign(lhs, op, rhs) =>
      var (x, m1) := Run(h, rhs, m);
      var t := Resolve(h, lhs, m1);
      (Absent, Store(m1, t, if op.Some? then h.binary(op.value, Load(m1, t), x) else x))
    case If(cond, thn, els) =>
      var (c, m1) := Run(h, cond, m);
      if h.truthy(c) then Run(h, thn, m1) else RunMaybe(h, els, m1)
    case Match(scrutinee, arms) =>
      var (v, m1) := Run(h, scrutinee, m);
      RunArms(h, arms, v, m1)
    case For(_, iter, _, _) =>
      var (v, m1) := Run(h, iter, m);
      var (vs, m2) := RunItems(h, e, h.items(v), m1);
      (List(vs), m2)
    case Block(stmts, tail) =>
      var (_, m1) := RunAll(h, stmts, m);
      var (v, m2) := RunMaybe(h, tail, m1);
      (v, Leave(m2, |m.locals|))
    case Let(pat, init) =>
      var (v, m1) := Run(h, init, m);
      var bs := h.bind(pat, v);
      (Absent, if bs.Some? then Push(m1, bs.value) else m1)
    case Closure(_, _) => (Absent, m)
    case Flow => (Absent, m)
    case Opaque(_) => (Absent, m)
    case Gsx => (Absent, m)
  }

  /** A mutating method: arguments first, then the receiver in place; a temporary receiver is just a value. */
  function RunMutator(h: Host, e: Expr, m: Machine): (Value, Machine)
    requires e.Method?
    decreases e, 1, 0
  {
    var (vs, m1) := RunAll(h, e.args, m);
    var t := Resolve(h, e.recv, m1);
    if t.Nowhere? then
      var (v, m2) := Run(h, e.recv, m1);
      (h.method'(e.name, v, vs).1, m2)
    else
      var (v, r) := h.method'(e.name, Load(m1, t), vs);
      (r, Store(m1, t, v))
  }

  function RunMaybe(h: Host, e: Option<Expr>, m: Machine): (Value, Machine)
    decreases e, 3, 0
  {
    if e.Some? then Run(h, e.value, m) else (Absent, m)
  }

  function RunAll(h: Host, es: seq<Expr>, m: Machine): (seq<Value>, Machine)
    decreases es, 3, 0
  {
    if es == [] then ([], m)
    else
      var (v, m1) := Run(h, es[0], m);
      var (vs, m2) := RunAll(h, es[1..], m1);
      ([v] + vs, m2)
  }

  function StoreArgs(h: Host, es: seq<Expr>, outs: seq<Value>, m: Machine): Machine
    decreases es, 3, 0
  {
    if es == [] || outs == [] then m
    else StoreArgs(h, es[1..], outs[1..], Store(m, ResolveArg(h, es[0], m), outs[0]))
  }

  function RunArms(h: Host, arms: seq<MatchArm>, v: Value, m: Machine): (Value, Machine)
    decreases arms, 3, 0
  {
    if arms == [] then (Absent, m)
    else
      var arm := arms[0];
      var bs := h.bind(arm.pat, v);
      if bs.None? then RunArms(h, arms[1..], v, m)
      else
        var (g, m1) := RunMaybe(h, arm.guard, Push(m, bs.value));
        if arm.guard.Some? && !h.truthy(g) then RunArms(h, arms[1..], v, Leave(m1, |m.locals|))
        else
          var (x, m2) := Run(h, arm.body, m1);
          (x, Leave(m2, |m.locals|))
  }

  /** The rows of a `for`: key and body for each item its pattern accepts. */
  function RunItems(h: Host, e: Expr, items: seq<Value>, m: Machine): (seq<Value>, Machine)
    requires e.For?
    decreases e, 1, |items|
  {
    if items == [] then ([], m)
    else
      var bs := h.bind(e.pat, items[0]);
      if bs.None? then RunItems(h, e, items[1..], m)
      else
        var (k, m1) := RunMaybe(h, e.key, Push(m, bs.value));
        var (x, m2) := Run(h, e.body, m1);
        var (rest, m3) := RunItems(h, e, items[1..], Leave(m2, |m.locals|));
        ([List([k, x])] + rest, m3)
  }

  /** A handler body runs on the state with the event's values bound. */
  function RunHandler(h: Host, body: Expr, events: Bindings, state: Value): Value {
    Run(h, body, Machine(state, events)).1.state
  }

  /** What a slot shows. */
  function RunSlot(h: Host, slot: Expr, locals: Bindings, state: Value): Value {
    Run(h, slot, Machine(state, locals)).0
  }
}
