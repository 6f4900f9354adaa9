/**
Programs of literals, arithmetic, branches, loops, calls and integer casts keep every integer in the
range of its type.

The evaluator does not look at types, so that much is asked of the program: a typing that says, for
some expressions and some names, what integer type they have. The one construct that needs it is a
range, whose elements are all given the type of its start.
*/
module ConstRange {
  import opened Arithmetic
  import opened ConstEval
  import opened ConstEvalCorrectness
  import opened ConstValue
  import opened Wrappers
  import S = ConstScopes

  // ----- typings -----

  /** An integer type, none, one for every element of an array or tuple, or one for each of some fields. */
  datatype Kind =
    | SignedKind(ity: IntTy)
    | UnsignedKind(uty: UintTy)
    | NonInteger
    | ElementsOf(element: Kind)
    | FieldsOf(fields: seq<FieldKind>)

  datatype FieldKind = FieldKind(name: Name, kind: Kind)

  /** The types of some expressions and names, at one pointer width. */
  datatype Typing = Typing(pointerWidth: nat, expr: Id -> Option<Kind>, name: Name -> Option<Kind>)

  predicate Is(v: Value, k: Kind)
    decreases k
  {
    match k
    case SignedKind(t) => v.IntV? && v.ity == t
    case UnsignedKind(t) => v.UintV? && v.uty == t
    case NonInteger => !IsInteger(v)
    case ElementsOf(c) => (v.ArrayV? || v.TupleV?) && forall i :: 0 <= i < |v.elems| ==> Is(v.elems[i], c)
    case FieldsOf(fs) => v.StructV? && forall i :: 0 <= i < |fs| ==> FieldIs(v.fields, fs[i])
  }

  predicate FieldIs(vs: seq<FieldValue>, f: FieldKind)
    decreases f
  {
    var v := FindField(vs, f.name);
    v.Some? && Is(v.value, f.kind)
  }

  function PartKind(k: Option<Kind>): Option<Kind> {
    if k.Some? && k.value.ElementsOf? then Some(k.value.element) else None
  }

  function NamedKind(fs: seq<FieldKind>, name: Name): Option<Kind> {
    if fs == [] then None else if fs[0].name == name then Some(fs[0].kind) else NamedKind(fs[1..], name)
  }

  function MemberKind(k: Option<Kind>, name: Name): Option<Kind> {
    if k.Some? && k.value.FieldsOf? then NamedKind(k.value.fields, name) else None
  }

  predicate Has(v: Value, k: Option<Kind>) {
    k.Some? ==> Is(v, k.value)
  }

  function Kinds(g: Typing, ids: seq<Id>): (ks: seq<Option<Kind>>)
    ensures |ks| == |ids| && forall i :: 0 <= i < |ids| ==> ks[i] == g.expr(ids[i])
  {
    seq(|ids|, i requires 0 <= i < |ids| => g.expr(ids[i]))
  }

  predicate AllHave(vs: seq<Value>, ks: seq<Option<Kind>>) {
    |vs| == |ks| && forall i :: 0 <= i < |vs| ==> Has(vs[i], ks[i])
  }

  /** A name that has a type is only bound to values of that type. */
  predicate NameFits(g: Typing, name: Name, k: Option<Kind>) {
    g.name(name).None? || g.name(name) == k
  }

  /** So for every name of a pattern matched against a value of kind k. */
  predicate PatFits(g: Typing, pat: Pat, k: Option<Kind>)
    decreases pat
  {
    match pat
    case PBinding(name) => NameFits(g, name, k)
    case POr(alts) => forall i :: 0 <= i < |alts| ==> PatFits(g, alts[i], k)
    case PTuple(parts) => PartsFit(g, parts, PartKind(k))
    case PSlice(parts) => PartsFit(g, parts, PartKind(k))
    case PStruct(fields) => forall i :: 0 <= i < |fields| ==> PatFits(g, fields[i].pat, MemberKind(k, fields[i].name))
    case _ => true
  }

  predicate PartsFit(g: Typing, parts: seq<Pat>, k: Option<Kind>)
    decreases parts
  {
    forall i :: 0 <= i < |parts| ==> PatFits(g, parts[i], k)
  }

  predicate ParamsFit(g: Typing, params: seq<Pat>, ks: seq<Option<Kind>>) {
    forall i :: 0 <= i < |params| && i < |ks| ==> PatFits(g, params[i], ks[i])
  }

  /** What a loop over the expression counts through, as far as the typing tells. */
  function ElementKind(p: Program, g: Typing, iterable: Id): Option<Kind> {
    var e := At(p, iterable);
    if e.Range? then if e.start.Some? then g.expr(e.start.value) else None
    else PartKind(g.expr(iterable))
  }

  /** The first initialiser of a field is the one that is read back. */
  function FirstInit(inits: seq<FieldInit>, name: Name): Option<Id> {
    if inits == [] then None else if inits[0].name == name then Some(inits[0].init) else FirstInit(inits[1..], name)
  }

  predicate FieldGiven(g: Typing, inits: seq<FieldInit>, f: FieldKind) {
    var id := FirstInit(inits, f.name);
    id.Some? && g.expr(id.value) == Some(f.kind)
  }

  /** The code a call runs, when it is not a builtin. */
  function Callee(p: Program, f: Id): Option<BodyFn> {
    var e := At(p, f);
    if e.Closure? then Some(BodyFn(e.params, e.body))
    else if e.Path? && |e.segments| == 1 && e.segments[0] in p.constFns then Some(p.constFns[e.segments[0]])
    else None
  }

  /** Why an expression is of kind k. */
  predicate Gives(p: Program, g: Typing, e: Expr, k: Kind) {
    match e
    case Literal(l) => Is(LitValue(l), k)
    case Binary(op, lhs, rhs) =>
      if op.Arith? then g.expr(lhs) == Some(k) || g.expr(rhs) == Some(k) else k == NonInteger
    case Unary(op, operand) => if op == Neg then g.expr(operand) == Some(k) else k == NonInteger
    case Cast(_, t) =>
      k == (if t.ToInt? then SignedKind(t.ity) else if t.ToUint? then UnsignedKind(t.uty) else NonInteger)
    case Ref(operand) => g.expr(operand) == Some(k)
    case Path(segments) =>
      && |segments| == 1 && g.name(segments[0]) == Some(k)
      && segments[0] !in p.fnDefs && p.host.unitStruct(segments[0]).None?
    case If(_, thn, els) => g.expr(thn) == Some(k) && els.Some? && g.expr(els.value) == Some(k)
    case Match(_, arms) => ArmsGive(g, arms, k)
    case Block(_, tail) => tail.Some? && g.expr(tail.value) == Some(k)
    case Call(f, _) => Callee(p, f).Some? && g.expr(Callee(p, f).value.body) == Some(k)
    case Return(value) => value.Some? && g.expr(value.value) == Some(k)
    case Missing => true
    case Tuple(elems) => k.ElementsOf? && elems != [] && ElemsGive(g, elems, k.element)
    case Array(elems) => k.ElementsOf? && ElemsGive(g, elems, k.element)
    case Struct(inits) => k.FieldsOf? && forall i :: 0 <= i < |k.fields| ==> FieldGiven(g, inits, k.fields[i])
    case Field(recv, name) => MemberKind(g.expr(recv), name) == Some(k)
    case Index(base, _) => PartKind(g.expr(base)) == Some(k)
    case _ => false
  }

  predicate ElemsGive(g: Typing, elems: seq<Id>, k: Kind) {
    forall i :: 0 <= i < |elems| ==> g.expr(elems[i]) == Some(k)
  }

  predicate ArmsGive(g: Typing, arms: seq<Arm>, k: Kind) {
    forall i :: 0 <= i < |arms| ==> g.expr(arms[i].body) == Some(k)
  }

  predicate ArmPatsFit(g: Typing, arms: seq<Arm>, k: Option<Kind>) {
    forall i :: 0 <= i < |arms| ==> PatFits(g, arms[i].pat, k)
  }

  // ----- the programs -----

  /**
  Literals fit their types; `!` is only put to what is no integer; there is no bitwise operator and no
  builtin; names are bound as the typing says; and the two bounds of a range are of one known kind.
  */
  predicate RegularExpr(p: Program, g: Typing, e: Expr) {
    match e
    case Literal(l) => InRange(LitValue(l), p.pointerWidth)
    case Binary(op, _, _) => !op.Bitwise?
    case Unary(op, operand) => op == Not ==> g.expr(operand) == Some(NonInteger)
    case MethodCall(_, _, _) => false
    case Call(f, args) =>
      && (At(p, f).Path? && |At(p, f).segments| == 1 ==> Callee(p, f).Some?)
      && (Callee(p, f).Some? ==> ParamsFit(g, Callee(p, f).value.params, Kinds(g, args)))
    case Let(pat, init) => pat.PBinding? ==> NameFits(g, pat.name, g.expr(init))
    case Assign(lhs, rhs) =>
      At(p, lhs).Path? && |At(p, lhs).segments| == 1 ==> NameFits(g, At(p, lhs).segments[0], g.expr(rhs))
    case Match(scrutinee, arms) => ArmPatsFit(g, arms, g.expr(scrutinee))
    case For(pat, iterable, _) => PatFits(g, pat, ElementKind(p, g, iterable))
    case Range(start, end, _) =>
      start.Some? && end.Some? ==> g.expr(start.value).Some? && g.expr(start.value) == g.expr(end.value)
    case _ => true
  }

  /** Enum variants and unit structs are not integers, and `!` has no meaning beyond integers and booleans. */
  ghost predicate Regular(p: Program, g: Typing) {
    && g.pointerWidth == p.pointerWidth
    && (forall id :: 0 <= id < |p.exprs| ==>
          RegularExpr(p, g, p.exprs[id]) && (g.expr(id).Some? ==> Gives(p, g, p.exprs[id], g.expr(id).value)))
    && (forall a, b :: p.host.variant(a, b).Some? ==> InRange(p.host.variant(a, b).value, p.pointerWidth))
    && (forall a :: p.host.unitStruct(a).Some? ==> InRange(p.host.unitStruct(a).value, p.pointerWidth))
    && (forall v :: !IsInteger(v) ==> p.host.notInt(v).None?)
  }

  /** A value that may stand under a name. */
  predicate Allowed(g: Typing, name: Name, v: Value) {
    InRange(v, g.pointerWidth) && Has(v, g.name(name))
  }

  ghost predicate EnvFits(env: Env, g: Typing) {
    forall k, name :: 0 <= k < |env| && name in env[k] ==> Allowed(g, name, env[k][name])
  }

  // ----- environments -----

  lemma {:induction false} LookupFits(env: Env, name: Name, g: Typing)
    requires EnvFits(env, g)
    ensures Lookup(env, name).Some? ==> Allowed(g, name, Lookup(env, name).value)
  {
    hide Allowed;
    if env != [] {
      LookupFits(env[..|env| - 1], name, g);
    }
  }

  lemma PutFits(env: Env, k: nat, name: Name, v: Value, g: Typing)
    requires EnvFits(env, g) && k < |env| && Allowed(g, name, v)
    ensures EnvFits(env[k := Put(env[k], name, v)], g)
  {
    hide Allowed;
  }

  lemma BindFits(env: Env, name: Name, v: Value, k: Option<Kind>, g: Typing)
    requires EnvFits(env, g) && InRange(v, g.pointerWidth) && Has(v, k) && NameFits(g, name, k)
    ensures EnvFits(Bind(env, name, v), g) && EnvFits(AssignName(env, name, v), g)
  {
    hide InRange, EnvFits;
    if env != [] {
      PutFits(env, |env| - 1, name, v, g);
    }
    S.ScopeHasName(env, name);
    var at := ScopeOf(env, name);
    if at.Some? {
      PutFits(env, at.value, name, v, g);
    }
  }

  lemma {:induction false} FieldFits(fields: seq<FieldValue>, name: Name, pointerWidth: nat)
    requires forall k :: 0 <= k < |fields| ==> InRange(fields[k].value, pointerWidth)
    ensures FindField(fields, name).Some? ==> InRange(FindField(fields, name).value, pointerWidth)
  {
    hide InRange;
    if fields != [] {
      FieldFits(fields[1..], name, pointerWidth);
    }
  }

  lemma {:induction false} NamedIs(vs: seq<FieldValue>, fs: seq<FieldKind>, name: Name)
    requires forall i :: 0 <= i < |fs| ==> FieldIs(vs, fs[i])
    ensures NamedKind(fs, name).Some? ==> FieldIs(vs, FieldKind(name, NamedKind(fs, name).value))
  {
    hide FieldIs;
    if fs != [] && fs[0].name != name {
      NamedIs(vs, fs[1..], name);
    } else if fs != [] {
      assert fs[0] == FieldKind(name, fs[0].kind);
    }
  }

  /** A field of a struct has the kind the struct's kind gives it. */
  lemma MemberHas(vs: seq<FieldValue>, k: Option<Kind>, name: Name)
    requires Has(StructV(vs), k)
    ensures MemberKind(k, name).Some? ==> FindField(vs, name).Some?
    ensures FindField(vs, name).Some? ==> Has(FindField(vs, name).value, MemberKind(k, name))
  {
    if k.Some? && k.value.FieldsOf? {
      NamedIs(vs, k.value.fields, name);
    }
  }

  lemma {:induction false} MatchFits(pat: Pat, v: Value, k: Option<Kind>, env: Env, g: Typing)
    requires EnvFits(env, g) && InRange(v, g.pointerWidth) && Has(v, k) && PatFits(g, pat, k)
    ensures EnvFits(Matches(pat, v, env).env, g)
    decreases pat, 0
  {
    hide EnvFits, Bind;
    match pat
    case PWild =>
    case PLiteral(_) =>
    case POr(alts) => MatchAnyFits(alts, v, k, env, g);
    case PTuple(parts) => if v.TupleV? && |parts| == |v.elems| { MatchAllFits(parts, v.elems, PartKind(k), env, g); }
    case PBinding(name) => BindFits(env, name, v, k, g);
    case PStruct(fields) => if v.StructV? && |fields| == |v.fields| { MatchFieldsFit(fields, v.fields, k, env, g); }
    case PPath(_) =>
    case PSlice(parts) => if v.ArrayV? && |parts| == |v.elems| { MatchAllFits(parts, v.elems, PartKind(k), env, g); }
    case PRange(_, _, _) =>
    case PErr =>
  }

  lemma {:induction false} MatchAnyFits(alts: seq<Pat>, v: Value, k: Option<Kind>, env: Env, g: Typing)
    requires EnvFits(env, g) && InRange(v, g.pointerWidth) && Has(v, k)
    requires forall i :: 0 <= i < |alts| ==> PatFits(g, alts[i], k)
    ensures EnvFits(MatchesAny(alts, v, env).env, g)
    decreases alts, 1
  {
    hide EnvFits, InRange, Matches, Has, PatFits;
    if alts != [] {
      MatchFits(alts[0], v, k, env, g);
      MatchAnyFits(alts[1..], v, k, Matches(alts[0], v, env).env, g);
    }
  }

  lemma {:induction false} MatchAllFits(parts: seq<Pat>, vs: seq<Value>, k: Option<Kind>, env: Env, g: Typing)
    requires EnvFits(env, g) && AllInRange(vs, g.pointerWidth) && PartsFit(g, parts, k)
    requires forall i :: 0 <= i < |vs| ==> Has(vs[i], k)
    ensures EnvFits(MatchesAll(parts, vs, env).env, g)
    decreases parts, 1
  {
    hide EnvFits, InRange, Matches, PatFits, Has;
    if parts != [] && vs != [] {
      MatchFits(parts[0], vs[0], k, env, g);
      MatchAllFits(parts[1..], vs[1..], k, Matches(parts[0], vs[0], env).env, g);
    }
  }

  lemma {:induction false} MatchFieldsFit(fields: seq<FieldPat>, vs: seq<FieldValue>, k: Option<Kind>, env: Env,
                                          g: Typing)
    requires Has(StructV(vs), k) && EnvFits(env, g) && forall k :: 0 <= k < |vs| ==>
             InRange(vs[k].value, g.pointerWidth)
    requires forall i :: 0 <= i < |fields| ==> PatFits(g, fields[i].pat, MemberKind(k, fields[i].name))
    ensures EnvFits(MatchesFields(fields, vs, env).env, g)
    decreases fields, 1
  {
    hide EnvFits, InRange, Matches, PatFits, Has;
    if fields != [] {
      var f, v := fields[0], FindField(vs, fields[0].name);
      FieldFits(vs, f.name, g.pointerWidth);
      if v.Some? {
        assert f.pat < f;
        MemberHas(vs, k, f.name);
        MatchFits(f.pat, v.value, MemberKind(k, f.name), env, g);
        MatchFieldsFit(fields[1..], vs, k, Matches(f.pat, v.value, env).env, g);
      }
    }
  }

  lemma {:induction false} BindParamsFit(params: seq<Pat>, vs: seq<Value>, ks: seq<Option<Kind>>, env: Env, g: Typing)
    requires EnvFits(env, g) && AllInRange(vs, g.pointerWidth) && AllHave(vs, ks) && ParamsFit(g, params, ks)
    ensures EnvFits(BindParams(params, vs, env).env, g)
  {
    hide EnvFits, InRange, Matches, PatFits, Has;
    if params != [] && vs != [] {
      MatchFits(params[0], vs[0], ks[0], env, g);
      BindParamsFit(params[1..], vs[1..], ks[1..], Matches(params[0], vs[0], env).env, g);
    }
  }

  // ----- operators -----

  lemma ArithFits(op: ArithOp, x: Value, y: Value, pointerWidth: nat)
    ensures ApplyArith(op, x, y, pointerWidth).Ok? ==>
              && InRange(ApplyArith(op, x, y, pointerWidth).value, pointerWidth)
              && IsInteger(x) && SameType(x, y) && SameType(x, ApplyArith(op, x, y, pointerWidth).value)
  {
    hide CheckedI128, CheckedU128, IntFits, UintFits;
  }

  lemma BinOpFits(p: Program, op: BinOp, x: Value, y: Value, k: Option<Kind>)
    requires !op.Bitwise? && InRange(x, p.pointerWidth) && InRange(y, p.pointerWidth)
    requires k.Some? ==> if op.Arith? then Is(x, k.value) || Is(y, k.value) else k.value == NonInteger
    ensures ApplyBinOp(p, op, x, y).Ok? ==>
              InRange(ApplyBinOp(p, op, x, y).value, p.pointerWidth) && Has(ApplyBinOp(p, op, x, y).value, k)
  {
    hide ApplyArith, CompareEq, CompareLt;
    if op.Arith? {
      ArithFits(op.op, x, y, p.pointerWidth);
    }
  }

  lemma UnOpFits(p: Program, op: UnOp, x: Value, k: Option<Kind>)
    requires op == Not ==> !IsInteger(x) && p.host.notInt(x).None?
    requires k.Some? ==> if op == Neg then Is(x, k.value) else k.value == NonInteger
    ensures ApplyUnOp(p, op, x).Ok? ==>
              InRange(ApplyUnOp(p, op, x).value, p.pointerWidth) && Has(ApplyUnOp(p, op, x).value, k)
  {
    hide IntFits, UintFits;
  }

  lemma FieldOfFits(v: Value, name: Name, k: Option<Kind>, pointerWidth: nat)
    requires InRange(v, pointerWidth) && Has(v, k) && FieldOf(v, name).Ok?
    ensures InRange(FieldOf(v, name).value, pointerWidth) && Has(FieldOf(v, name).value, MemberKind(k, name))
  {
    hide Has;
    if v.StructV? {
      MemberHas(v.fields, k, name);
      FieldFits(v.fields, name, pointerWidth);
    }
  }

  lemma ElementFits(v: Value, index: Value, k: Option<Kind>, pointerWidth: nat)
    requires InRange(v, pointerWidth) && Has(v, k) && ElementAt(v, index).Ok?
    ensures InRange(ElementAt(v, index).value, pointerWidth) && Has(ElementAt(v, index).value, PartKind(k))
  {
    hide AsU128;
  }

  lemma PathFits(p: Program, g: Typing, e: Expr, k: Option<Kind>, env: Env)
    requires e.Path? && Regular(p, g) && EnvFits(env, g) && (k.Some? ==> Gives(p, g, e, k.value))
    ensures EvalPath(p, e.segments, env).Ok? ==>
              InRange(EvalPath(p, e.segments, env).value, p.pointerWidth) && Has(EvalPath(p, e.segments, env).value, k)
  {
    hide EnvFits, RegularExpr;
    if |e.segments| == 1 {
      LookupFits(env, e.segments[0], g);
    }
  }

  // ----- the elements of a range -----

  lemma {:induction false} CountUpFits(from: int, end: int, inclusive: bool, proto: Value, budget: nat,
                                       pointerWidth: nat)
    requires IsInteger(proto)
    requires forall i: int :: from <= i <= end ==> InRange(OfType(i, proto), pointerWidth)
    requires proto.UintV? ==> from >= 0
    requires end < TWO_127
    ensures AllInRange(CountUp(from, end, inclusive, proto, budget), pointerWidth)
    decreases budget
  {
    if !(if inclusive then from > end else from >= end) {
      assert Counted(from, proto) == OfType(from, proto);
      if budget > 0 {
        CountUpFits(if from + 1 < TWO_127 then from + 1 else from, end, inclusive, proto, budget - 1, pointerWidth);
      }
    }
  }

  lemma {:induction false} CountUpHas(from: int, end: int, inclusive: bool, proto: Value, budget: nat, k: Option<Kind>,
                                      j: nat)
    requires IsInteger(proto) && Has(proto, k) && j < |CountUp(from, end, inclusive, proto, budget)|
    ensures Has(CountUp(from, end, inclusive, proto, budget)[j], k)
    decreases budget
  {
    if j > 0 && budget > 0 {
      CountUpHas(if from + 1 < TWO_127 then from + 1 else from, end, inclusive, proto, budget - 1, k, j - 1);
    }
  }

  lemma Between(x: Value, y: Value, i: int, pointerWidth: nat)
    requires IsInteger(x) && IsInteger(y) && SameType(x, y) && InRange(x, pointerWidth) && InRange(y, pointerWidth)
    requires Number(x) <= i <= Number(y)
    ensures InRange(OfType(i, x), pointerWidth)
  {
  }

  lemma AsNumber(v: Value, pointerWidth: nat)
    requires InRange(v, pointerWidth) && IsInteger(v)
    ensures AsI128(v) == Some(Number(v)) && -TWO_127 <= Number(v) < TWO_127 && (v.UintV? ==> Number(v) >= 0)
  {
  }

  lemma ElementsFit(v: Value, pointerWidth: nat)
    requires InRange(v, pointerWidth)
    ensures Elements(v).Ok? ==> AllInRange(Elements(v).value, pointerWidth)
  {
    hide CountUp, AsI128;
    if v.RangeV? && Elements(v).Ok? {
      var x, y := v.start.value, v.end.value;
      OnlyIntegers(x);
      OnlyIntegers(y);
      AsNumber(x, pointerWidth);
      AsNumber(y, pointerWidth);
      forall i: int | Number(x) <= i <= Number(y)
        ensures InRange(OfType(i, x), pointerWidth)
      {
        Between(x, y, i, pointerWidth);
      }
      CountUpFits(Number(x), Number(y), v.inclusive, x, MAX_ITERS, pointerWidth);
    }
  }

  lemma OnlyIntegers(v: Value)
    ensures AsI128(v).Some? <==> IsInteger(v)
  {
  }

  // ----- every successful evaluation -----

  ghost predicate Good(g: Typing, v: Value, k: Option<Kind>, st: State) {
    InRange(v, g.pointerWidth) && Has(v, k) && EnvFits(st.env, g)
  }

  ghost predicate GoodAll(g: Typing, vs: seq<Value>, ks: seq<Option<Kind>>, st: State) {
    AllInRange(vs, g.pointerWidth) && AllHave(vs, ks) && EnvFits(st.env, g)
  }

  /** What the typing says of e, it says with reason. */
  predicate Sure(p: Program, g: Typing, e: Expr, k: Option<Kind>) {
    k.Some? ==> Gives(p, g, e, k.value)
  }

  lemma AtRegular(p: Program, g: Typing, id: Id)
    requires Regular(p, g)
    ensures RegularExpr(p, g, At(p, id)) && Sure(p, g, At(p, id), g.expr(id))
  {
    hide InRange, PatFits;
    if id < |p.exprs| {
      hide RegularExpr, Gives;
    }
  }

  lemma Widths(p: Program, g: Typing)
    requires Regular(p, g)
    ensures g.pointerWidth == p.pointerWidth
    ensures forall v :: !IsInteger(v) ==> p.host.notInt(v).None?
  {
    hide RegularExpr, Gives, InRange;
  }

  lemma {:induction false} IdFits(p: Program, g: Typing, id: Id, left: nat, st: State)
    requires Regular(p, g) && EnvFits(st.env, g) && EvalId(p, id, left, st).0.Ok?
    ensures Good(g, EvalId(p, id, left, st).0.value, g.expr(id), EvalId(p, id, left, st).1)
    decreases left, 1, 0
  {
    hide Regular, RegularExpr, EnvFits, EvalExpr, Good, At, Sure;
    AtRegular(p, g, id);
    ExprFits(p, g, At(p, id), g.expr(id), left, st);
  }

  lemma {:induction false} ExprFits(p: Program, g: Typing, e: Expr, k: Option<Kind>, left: nat, st: State)
    requires Regular(p, g) && RegularExpr(p, g, e) && Sure(p, g, e, k) && EnvFits(st.env, g)
    requires EvalExpr(p, e, left, st).0.Ok?
    ensures Good(g, EvalExpr(p, e, left, st).0.value, k, EvalExpr(p, e, left, st).1)
    decreases left, 0, 0
  {
    hide Regular, RegularExpr, EnvFits, EvalOperation, EvalControl, Good, Sure;
    if IsControl(e) {
      ControlFits(p, g, e, k, left - 1, st);
    } else {
      OperationFits(p, g, e, k, left - 1, st);
    }
  }

  lemma {:induction false} OperationFits(p: Program, g: Typing, e: Expr, k: Option<Kind>, left: nat, st: State)
    requires !IsControl(e) && Regular(p, g) && RegularExpr(p, g, e) && Sure(p, g, e, k) && EnvFits(st.env, g)
    requires EvalOperation(p, e, left, st).0.Ok?
    ensures Good(g, EvalOperation(p, e, left, st).0.value, k, EvalOperation(p, e, left, st).1)
    decreases left, 6, 0
  {
    hide Regular, EnvFits, EvalId, EvalAll, EvalBound, EvalPath, ApplyBinOp, ApplyUnOp, FieldOf, ElementAt, CastTo,
         InRange;
    hide RegularExpr, SameType, Has, At;
    Widths(p, g);
    if e.Literal? {
      LiteralFits(p, g, e, k);
    } else if e.Binary? {
      BinaryFits(p, g, e, k, left, st);
    } else if e.Unary? {
      UnaryFits(p, g, e, k, left, st);
    } else if e.Tuple? || e.Array? || e.Struct? {
      AggregateFits(p, g, e, k, left, st);
    } else if e.Path? {
      PathFits(p, g, e, k, st.env);
    } else if e.Field? {
      IdFits(p, g, e.recv, left, st);
      FieldOfFits(EvalId(p, e.recv, left, st).0.value, e.field, g.expr(e.recv), p.pointerWidth);
      PartSure(p, g, e, k);
    } else if e.Index? {
      IndexFits(p, g, e, k, left, st);
    } else if e.Cast? {
      CastFits(p, g, e, k, left, st);
    } else if e.Ref? {
      IdFits(p, g, e.operand, left, st);
      RefKind(p, g, e, k);
    } else if e.Range? {
      RangeFits(p, g, e, left, st);
      Unsure(p, g, e, k, EvalOperation(p, e, left, st).0.value);
    }
  }

  /** What the typing says of a field or an element, it takes from the whole. */
  lemma PartSure(p: Program, g: Typing, e: Expr, k: Option<Kind>)
    requires Sure(p, g, e, k) && (e.Field? || e.Index?)
    ensures forall v :: Has(v, if e.Field? then MemberKind(g.expr(e.recv), e.field) else PartKind(g.expr(e.base))) ==>
                          Has(v, k)
  {
    hide Is;
  }

  /** The typing says nothing of these. */
  lemma Unsure(p: Program, g: Typing, e: Expr, k: Option<Kind>, v: Value)
    requires Sure(p, g, e, k)
    requires e.Range? || e.Break? || e.Continue? || e.Let? || e.Assign? || e.While? || e.Loop? || e.For?
    ensures k.None? && Has(v, k)
  {
  }

  lemma RefKind(p: Program, g: Typing, e: Expr, k: Option<Kind>)
    requires e.Ref? && Sure(p, g, e, k)
    ensures k.Some? ==> g.expr(e.operand) == k
    ensures forall v :: Has(v, g.expr(e.operand)) ==> Has(v, k)
  {
  }

  lemma LiteralFits(p: Program, g: Typing, e: Expr, k: Option<Kind>)
    requires e.Literal? && RegularExpr(p, g, e) && Sure(p, g, e, k)
    ensures InRange(LitValue(e.lit), p.pointerWidth) && Has(LitValue(e.lit), k)
  {
  }

  lemma {:induction false} UnaryFits(p: Program, g: Typing, e: Expr, k: Option<Kind>, left: nat, st: State)
    requires e.Unary? && Regular(p, g) && RegularExpr(p, g, e) && Sure(p, g, e, k) && EnvFits(st.env, g)
    requires EvalOperation(p, e, left, st).0.Ok?
    ensures Good(g, EvalOperation(p, e, left, st).0.value, k, EvalOperation(p, e, left, st).1)
    decreases left, 5, 0
  {
    hide Regular, EnvFits, EvalId, ApplyUnOp, InRange;
    Widths(p, g);
    IdFits(p, g, e.operand, left, st);
    UnOpFits(p, e.unop, EvalId(p, e.operand, left, st).0.value, k);
  }

  lemma {:induction false} BinaryFits(p: Program, g: Typing, e: Expr, k: Option<Kind>, left: nat, st: State)
    requires e.Binary? && Regular(p, g) && RegularExpr(p, g, e) && Sure(p, g, e, k) && EnvFits(st.env, g)
    requires EvalOperation(p, e, left, st).0.Ok?
    ensures Good(g, EvalOperation(p, e, left, st).0.value, k, EvalOperation(p, e, left, st).1)
    decreases left, 5, 0
  {
    hide Regular, EnvFits, EvalId, ApplyBinOp, InRange;
    Widths(p, g);
    var (x, s1) := EvalId(p, e.lhs, left, st);
    IdFits(p, g, e.lhs, left, st);
    IdFits(p, g, e.rhs, left, s1);
    BinOpFits(p, e.binop, x.value, EvalId(p, e.rhs, left, s1).0.value, k);
  }

  lemma {:induction false} IndexFits(p: Program, g: Typing, e: Expr, k: Option<Kind>, left: nat, st: State)
    requires e.Index? && Regular(p, g) && Sure(p, g, e, k) && EnvFits(st.env, g)
    requires EvalOperation(p, e, left, st).0.Ok?
    ensures Good(g, EvalOperation(p, e, left, st).0.value, k, EvalOperation(p, e, left, st).1)
    decreases left, 5, 0
  {
    hide Regular, EnvFits, EvalId, ElementAt, InRange, Sure, Has;
    var s1 := EvalId(p, e.base, left, st).1;
    IdFits(p, g, e.base, left, st);
    IdFits(p, g, e.index, left, s1);
    ElementFits(EvalId(p, e.base, left, st).0.value, EvalId(p, e.index, left, s1).0.value, g.expr(e.base),
                g.pointerWidth);
    PartSure(p, g, e, k);
  }

  lemma {:induction false} CastFits(p: Program, g: Typing, e: Expr, k: Option<Kind>, left: nat, st: State)
    requires e.Cast? && Regular(p, g) && Sure(p, g, e, k) && EnvFits(st.env, g)
    requires EvalOperation(p, e, left, st).0.Ok?
    ensures Good(g, EvalOperation(p, e, left, st).0.value, k, EvalOperation(p, e, left, st).1)
    decreases left, 5, 0
  {
    hide Regular, EnvFits, EvalId, InRange, AsI128, AsU128;
    IdFits(p, g, e.operand, left, st);
    CastInRange(EvalId(p, e.operand, left, st).0.value, e.target, g.pointerWidth);
  }

  lemma {:induction false} AggregateFits(p: Program, g: Typing, e: Expr, k: Option<Kind>, left: nat, st: State)
    requires (e.Tuple? || e.Array? || e.Struct?) && Regular(p, g) && Sure(p, g, e, k) && EnvFits(st.env, g)
    requires EvalOperation(p, e, left, st).0.Ok?
    ensures Good(g, EvalOperation(p, e, left, st).0.value, k, EvalOperation(p, e, left, st).1)
    decreases left, 5, 0
  {
    hide Regular, EnvFits, EvalAll, Sure, Has;
    if e.Struct? {
      AllFit(p, g, InitIds(e.inits), left, st);
      StructHas(p, g, e, EvalAll(p, InitIds(e.inits), left, st).0.value, k);
    } else if e.elems != [] || e.Array? {
      AllFit(p, g, e.elems, left, st);
      SequenceHas(p, g, e, EvalAll(p, e.elems, left, st).0.value, k);
    } else {
      EmptyTuple(p, g, e, k);
    }
  }

  lemma EmptyTuple(p: Program, g: Typing, e: Expr, k: Option<Kind>)
    requires e == Tuple([]) && Sure(p, g, e, k)
    ensures Has(UnitV, k)
  {
  }

  lemma SequenceHas(p: Program, g: Typing, e: Expr, vs: seq<Value>, k: Option<Kind>)
    requires (e.Tuple? || e.Array?) && AllHave(vs, Kinds(g, e.elems)) && Sure(p, g, e, k)
    ensures Has(TupleV(vs), k) && Has(ArrayV(vs), k)
  {
    if k.Some? {
      forall i | 0 <= i < |vs|
        ensures Is(vs[i], k.value.element)
      {
        assert Has(vs[i], Kinds(g, e.elems)[i]);
      }
    }
  }

  lemma StructHas(p: Program, g: Typing, e: Expr, vs: seq<Value>, k: Option<Kind>)
    requires e.Struct? && AllHave(vs, Kinds(g, InitIds(e.inits))) && Sure(p, g, e, k)
    ensures Has(StructV(Named(e.inits, vs)), k)
  {
    if k.Some? {
      forall i | 0 <= i < |k.value.fields|
        ensures FieldIs(Named(e.inits, vs), k.value.fields[i])
      {
        InitHas(g, e.inits, vs, k.value.fields[i]);
      }
    }
  }

  lemma {:induction false} InitHas(g: Typing, inits: seq<FieldInit>, vs: seq<Value>, f: FieldKind)
    requires AllHave(vs, Kinds(g, InitIds(inits))) && FieldGiven(g, inits, f)
    ensures FieldIs(Named(inits, vs), f)
    decreases |inits|
  {
    hide Is;
    var ids := InitIds(inits);
    assert Has(vs[0], Kinds(g, ids)[0]);
    assert Named(inits, vs)[0] == FieldValue(inits[0].name, vs[0]);
    if inits[0].name != f.name {
      assert Named(inits, vs)[1..] == Named(inits[1..], vs[1..]);
      assert InitIds(inits[1..]) == ids[1..] && Kinds(g, ids[1..]) == Kinds(g, ids)[1..];
      InitHas(g, inits[1..], vs[1..], f);
    }
  }

  lemma {:induction false} BoundFits(p: Program, g: Typing, id: Option<Id>, left: nat, st: State)
    requires Regular(p, g) && EnvFits(st.env, g) && EvalBound(p, id, left, st).0.Ok?
    ensures var (v, s1) := EvalBound(p, id, left, st);
            && EnvFits(s1.env, g) && (v.value.Some? <==> id.Some?)
            && (id.Some? ==> InRange(v.value.value, g.pointerWidth) && Has(v.value.value, g.expr(id.value)))
    decreases left, 2, 0
  {
    hide Regular, EnvFits, EvalId, InRange, Has;
    if id.Some? {
      IdFits(p, g, id.value, left, st);
    }
  }

  /** A range's start has the kind its loop counts through. */
  lemma {:induction false} RangeFits(p: Program, g: Typing, e: Expr, left: nat, st: State)
    requires e.Range? && Regular(p, g) && RegularExpr(p, g, e) && EnvFits(st.env, g)
    requires EvalOperation(p, e, left, st).0.Ok?
    ensures Good(g, EvalOperation(p, e, left, st).0.value, None, EvalOperation(p, e, left, st).1)
    ensures EvalOperation(p, e, left, st).0.value.RangeV?
    ensures e.start.Some? && EvalOperation(p, e, left, st).0.value.start.Some? ==>
              Has(EvalOperation(p, e, left, st).0.value.start.value, g.expr(e.start.value))
    decreases left, 5, 0
  {
    hide Regular, EnvFits, EvalBound, IntFits, UintFits;
    var s1 := EvalBound(p, e.start, left, st).1;
    BoundFits(p, g, e.start, left, st);
    BoundFits(p, g, e.end, left, s1);
  }

  lemma {:induction false} MaybeFits(p: Program, g: Typing, id: Option<Id>, left: nat, st: State)
    requires Regular(p, g) && EnvFits(st.env, g) && EvalMaybe(p, id, left, st).0.Ok?
    ensures Good(g, EvalMaybe(p, id, left, st).0.value,
                 if id.Some? then g.expr(id.value) else None, EvalMaybe(p, id, left, st).1)
    decreases left, 2, 0
  {
    hide Regular, EnvFits, EvalId;
    if id.Some? {
      IdFits(p, g, id.value, left, st);
    }
  }

  lemma {:induction false} AllFit(p: Program, g: Typing, ids: seq<Id>, left: nat, st: State)
    requires Regular(p, g) && EnvFits(st.env, g) && EvalAll(p, ids, left, st).0.Ok?
    ensures GoodAll(g, EvalAll(p, ids, left, st).0.value, Kinds(g, ids), EvalAll(p, ids, left, st).1)
    decreases left, 3, |ids|
  {
    hide Regular, EnvFits, EvalId, InRange, Has;
    if ids != [] {
      IdFits(p, g, ids[0], left, st);
      AllFit(p, g, ids[1..], left, EvalId(p, ids[0], left, st).1);
    }
  }

  lemma {:induction false} ArmsFit(p: Program, g: Typing, arms: seq<Arm>, v: Value, kv: Option<Kind>, k: Option<Kind>,
                                   left: nat, st: State)
    requires Regular(p, g) && InRange(v, g.pointerWidth) && Has(v, kv) && EnvFits(st.env, g)
    requires ArmPatsFit(g, arms, kv) && (k.Some? ==> ArmsGive(g, arms, k.value))
    requires EvalArms(p, arms, v, left, st).0.Ok?
    ensures Good(g, EvalArms(p, arms, v, left, st).0.value, k, EvalArms(p, arms, v, left, st).1)
    decreases left, 3, |arms|
  {
    hide Regular, EnvFits, EvalId, InRange, Matches, PatFits;
    MatchFits(arms[0].pat, v, kv, st.env, g);
    var m := Matches(arms[0].pat, v, st.env);
    var s1 := st.(env := m.env);
    if m.result.value {
      IdFits(p, g, arms[0].body, left, s1);
    } else {
      ArmsFit(p, g, arms[1..], v, kv, k, left, s1);
    }
  }

  lemma PushFits(env: Env, g: Typing)
    requires EnvFits(env, g)
    ensures EnvFits(env + [map[]], g)
  {
    hide Allowed;
  }

  lemma PopFits(st: State, g: Typing)
    requires EnvFits(st.env, g)
    ensures EnvFits(PopScope(st).env, g)
  {
    hide Allowed;
  }

  lemma {:induction false} BlockFits(p: Program, g: Typing, e: Expr, k: Option<Kind>, left: nat, st: State)
    requires e.Block? && Regular(p, g) && Sure(p, g, e, k) && EnvFits(st.env, g)
    requires EvalBlock(p, e.stmts, e.tail, left, st).0.Ok?
    ensures var o := EvalBlock(p, e.stmts, e.tail, left, st); Good(g, o.0.value, k, o.1)
    decreases left, 4, 0
  {
    hide Regular, EnvFits, EvalAll, EvalMaybe, InRange;
    PushFits(st.env, g);
    var s1 := EvalAll(p, e.stmts, left, PushScope(st)).1;
    AllFit(p, g, e.stmts, left, PushScope(st));
    MaybeFits(p, g, e.tail, left, s1);
    PopFits(EvalMaybe(p, e.tail, left, s1).1, g);
  }

  lemma {:induction false} InvocationFits(p: Program, g: Typing, f: BodyFn, vs: seq<Value>, ks: seq<Option<Kind>>,
                                          left: nat, st: State)
    requires Regular(p, g) && AllInRange(vs, g.pointerWidth) && AllHave(vs, ks) && EnvFits(st.env, g)
    requires ParamsFit(g, f.params, ks) && BindAndEval(p, f.params, f.body, vs, left, st).0.Ok?
    ensures var o := BindAndEval(p, f.params, f.body, vs, left, st); Good(g, o.0.value, g.expr(f.body), o.1)
    decreases left, 4, 0
  {
    hide Regular, EnvFits, EvalId, InRange, BindParams, ParamsFit, AllHave, Has;
    PushFits(st.env, g);
    BindParamsFit(f.params, vs, ks, PushScope(st).env, g);
    var s1 := st.(env := BindParams(f.params, vs, PushScope(st).env).env);
    IdFits(p, g, f.body, left, s1);
    PopFits(EvalId(p, f.body, left, s1).1, g);
  }

  lemma {:induction false} CallFits(p: Program, g: Typing, e: Expr, k: Option<Kind>, left: nat, st: State)
    requires e.Call? && Regular(p, g) && RegularExpr(p, g, e) && Sure(p, g, e, k) && EnvFits(st.env, g)
    requires EvalCall(p, At(p, e.func), e.args, left, st).0.Ok?
    ensures var o := EvalCall(p, At(p, e.func), e.args, left, st); Good(g, o.0.value, k, o.1)
    decreases left, 5, 0
  {
    hide Regular, EnvFits, EvalAll, BindAndEval, InRange, At, ParamsFit, Kinds, GoodAll;
    var callee := At(p, e.func);
    AllFit(p, g, e.args, left, st);
    var (vs, s1) := EvalAll(p, e.args, left, st);
    AllGood(g, vs.value, Kinds(g, e.args), s1);
    InvocationFits(p, g, Callee(p, e.func).value, vs.value, Kinds(g, e.args), left, s1);
  }

  lemma AllGood(g: Typing, vs: seq<Value>, ks: seq<Option<Kind>>, st: State)
    requires GoodAll(g, vs, ks, st)
    ensures AllInRange(vs, g.pointerWidth) && AllHave(vs, ks) && EnvFits(st.env, g)
  {
  }

  lemma GoodParts(g: Typing, v: Value, k: Option<Kind>, st: State)
    requires Good(g, v, k, st)
    ensures InRange(v, g.pointerWidth) && Has(v, k) && EnvFits(st.env, g)
    ensures forall c :: EnvFits(st.(control := c).env, g)
  {
    hide InRange, EnvFits, Has;
  }

  lemma UnitGood(g: Typing, st: State)
    requires EnvFits(st.env, g)
    ensures forall c :: Good(g, UnitV, None, st.(control := c))
    ensures Good(g, UnitV, None, st)
  {
    hide EnvFits;
  }

  lemma {:induction false} WhileFits(p: Program, g: Typing, cond: Id, body: Id, iters: nat, left: nat, st: State)
    requires Regular(p, g) && EnvFits(st.env, g) && EvalWhile(p, cond, body, iters, left, st).0.Ok?
    ensures Good(g, EvalWhile(p, cond, body, iters, left, st).0.value, None,
                 EvalWhile(p, cond, body, iters, left, st).1)
    decreases left, 2, iters
  {
    hide Regular, EnvFits, EvalId, Good;
    var (c, s1) := EvalId(p, cond, left, st);
    IdFits(p, g, cond, left, st);
    GoodParts(g, c.value, g.expr(cond), s1);
    UnitGood(g, s1);
    if c.value.b {
      var (r, s2) := EvalId(p, body, left, s1);
      IdFits(p, g, body, left, s1);
      GoodParts(g, r.value, g.expr(body), s2);
      UnitGood(g, s2);
      if !Stops(s2.control) {
        WhileFits(p, g, cond, body, iters - 1, left, s2.(control := None));
      }
    }
  }

  lemma {:induction false} LoopFits(p: Program, g: Typing, body: Id, iters: nat, left: nat, st: State)
    requires Regular(p, g) && EnvFits(st.env, g) && EvalLoop(p, body, iters, left, st).0.Ok?
    ensures Good(g, EvalLoop(p, body, iters, left, st).0.value, None, EvalLoop(p, body, iters, left, st).1)
    decreases left, 2, iters
  {
    hide Regular, EnvFits, EvalId, Good;
    var (r, s1) := EvalId(p, body, left, st);
    IdFits(p, g, body, left, st);
    GoodParts(g, r.value, g.expr(body), s1);
    UnitGood(g, s1);
    if !Stops(s1.control) {
      LoopFits(p, g, body, iters - 1, left, s1.(control := None));
    }
  }

  ghost predicate ElementsGood(g: Typing, elems: seq<Value>, k: Option<Kind>) {
    AllInRange(elems, g.pointerWidth) && forall i :: 0 <= i < |elems| ==> Has(elems[i], k)
  }

  lemma {:induction false} ForFits(p: Program, g: Typing, pat: Pat, elems: seq<Value>, k: Option<Kind>, body: Id,
                                   left: nat, st: State)
    requires Regular(p, g) && ElementsGood(g, elems, k) && PatFits(g, pat, k) && EnvFits(st.env, g)
    requires EvalFor(p, pat, elems, body, left, st).0.Ok?
    ensures Good(g, EvalFor(p, pat, elems, body, left, st).0.value, None, EvalFor(p, pat, elems, body, left, st).1)
    decreases left, 2, |elems|
  {
    hide Regular, EnvFits, EvalId, Good, InRange, Matches, Has, PatFits;
    UnitGood(g, st);
    if elems != [] {
      MatchFits(pat, elems[0], k, st.env, g);
      var s0 := st.(env := Matches(pat, elems[0], st.env).env);
      var (r, s1) := EvalId(p, body, left, s0);
      IdFits(p, g, body, left, s0);
      GoodParts(g, r.value, g.expr(body), s1);
      UnitGood(g, s1);
      if !Stops(s1.control) {
        ForFits(p, g, pat, elems[1..], k, body, left, s1.(control := None));
      }
    }
  }

  lemma {:induction false} IterableFits(p: Program, g: Typing, id: Id, left: nat, st: State)
    requires Regular(p, g) && EnvFits(st.env, g) && EvalId(p, id, left, st).0.Ok?
    requires Elements(EvalId(p, id, left, st).0.value).Ok?
    ensures ElementsGood(g, Elements(EvalId(p, id, left, st).0.value).value, ElementKind(p, g, id))
    decreases left, 2, 0
  {
    hide Regular, RegularExpr, EnvFits, EvalOperation, EvalControl, InRange, Has, CountUp, AsI128;
    var v := EvalId(p, id, left, st).0.value;
    IdFits(p, g, id, left, st);
    ElementsFit(v, g.pointerWidth);
    var e, k := At(p, id), ElementKind(p, g, id);
    if !e.Range? {
      GoodParts(g, v, g.expr(id), EvalId(p, id, left, st).1);
      PartsHave(v, g.expr(id));
    } else if k.Some? {
      AtRegular(p, g, id);
      RangeFits(p, g, e, left - 1, st);
      assert v == EvalOperation(p, e, left - 1, st).0.value;
      OnlyIntegers(v.start.value);
      forall i | 0 <= i < |Elements(v).value|
        ensures Has(Elements(v).value[i], k)
      {
        CountUpHas(AsI128(v.start.value).value, AsI128(v.end.value).value, v.inclusive, v.start.value, MAX_ITERS, k, i);
      }
    } else {
      NothingKnown();
    }
  }

  lemma PartsHave(v: Value, k: Option<Kind>)
    requires Has(v, k) && Elements(v).Ok?
    ensures forall i :: 0 <= i < |Elements(v).value| ==> Has(Elements(v).value[i], PartKind(k))
  {
    hide CountUp, AsI128;
  }

  lemma NothingKnown()
    ensures forall v :: Has(v, None)
  {
  }

  lemma {:induction false} ControlFits(p: Program, g: Typing, e: Expr, k: Option<Kind>, left: nat, st: State)
    requires IsControl(e) && Regular(p, g) && RegularExpr(p, g, e) && Sure(p, g, e, k) && EnvFits(st.env, g)
    requires EvalControl(p, e, left, st).0.Ok?
    ensures Good(g, EvalControl(p, e, left, st).0.value, k, EvalControl(p, e, left, st).1)
    decreases left, 6, 0
  {
    hide Regular, RegularExpr, EnvFits, Good, InRange, EvalId, EvalAll, EvalMaybe, EvalArms, EvalBlock, EvalCall,
         EvalWhile;
    hide EvalLoop, EvalFor, AssignName, Elements, At, Sure, Has;
    if e.If? || e.Match? {
      BranchFits(p, g, e, k, left, st);
    } else if e.Block? {
      BlockFits(p, g, e, k, left, st);
    } else if e.Call? {
      CallFits(p, g, e, k, left, st);
    } else if e.Return? {
      ReturnFits(p, g, e, k, left, st);
    } else {
      PlainFits(p, g, e, left, st);
      NotMethod(p, g, e);
      Unsure(p, g, e, k, UnitV);
    }
  }

  lemma NotMethod(p: Program, g: Typing, e: Expr)
    requires RegularExpr(p, g, e)
    ensures !e.MethodCall?
  {
  }

  lemma {:induction false} ReturnFits(p: Program, g: Typing, e: Expr, k: Option<Kind>, left: nat, st: State)
    requires e.Return? && Regular(p, g) && Sure(p, g, e, k) && EnvFits(st.env, g)
             && EvalMaybe(p, e.value, left, st).0.Ok?
    ensures Good(g, EvalMaybe(p, e.value, left, st).0.value, k, EvalMaybe(p, e.value, left, st).1)
    decreases left, 5, 0
  {
    hide Regular, EnvFits, InRange, EvalMaybe;
    MaybeFits(p, g, e.value, left, st);
  }

  /** Bindings and loops, whose value is unit. */
  lemma {:induction false} PlainFits(p: Program, g: Typing, e: Expr, left: nat, st: State)
    requires IsControl(e) && !e.If? && !e.Match? && !e.Block? && !e.Call? && !e.Return?
    requires Regular(p, g) && RegularExpr(p, g, e) && EnvFits(st.env, g) && EvalControl(p, e, left, st).0.Ok?
    ensures Good(g, EvalControl(p, e, left, st).0.value, None, EvalControl(p, e, left, st).1)
    decreases left, 5, 1
  {
    hide Regular, RegularExpr, EnvFits, Good, InRange, EvalId, EvalAll, EvalWhile, EvalLoop, EvalFor, AssignName,
         Elements, At;
    NotMethod(p, g, e);
    if e.Assign? || e.Let? {
      AssignmentFits(p, g, e, left, st);
    } else if e.Break? || e.Continue? {
      UnitGood(g, st);
    } else if e.While? {
      WhileFits(p, g, e.cond, e.body, MAX_ITERS, left, st);
    } else if e.Loop? {
      LoopFits(p, g, e.body, MAX_ITERS, left, st);
    } else if e.For? {
      var (v, s1) := EvalId(p, e.iterable, left, st);
      IdFits(p, g, e.iterable, left, st);
      GoodParts(g, v.value, g.expr(e.iterable), s1);
      IterableFits(p, g, e.iterable, left, st);
      ForPattern(p, g, e);
      ForFits(p, g, e.pat, Elements(v.value).value, ElementKind(p, g, e.iterable), e.body, left, s1);
    }
  }

  lemma ForPattern(p: Program, g: Typing, e: Expr)
    requires e.For? && RegularExpr(p, g, e)
    ensures PatFits(g, e.pat, ElementKind(p, g, e.iterable))
  {
  }

  lemma {:induction false} BranchFits(p: Program, g: Typing, e: Expr, k: Option<Kind>, left: nat, st: State)
    requires (e.If? || e.Match?) && Regular(p, g) && RegularExpr(p, g, e) && Sure(p, g, e, k) && EnvFits(st.env, g)
    requires EvalControl(p, e, left, st).0.Ok?
    ensures Good(g, EvalControl(p, e, left, st).0.value, k, EvalControl(p, e, left, st).1)
    decreases left, 5, 0
  {
    hide Regular, EnvFits, InRange, EvalId, EvalMaybe, EvalArms, ArmPatsFit, ArmsGive;
    var first := if e.If? then e.cond else e.scrutinee;
    var (v, s1) := EvalId(p, first, left, st);
    IdFits(p, g, first, left, st);
    if e.Match? {
      ArmsFit(p, g, e.arms, v.value, g.expr(first), k, left, s1);
    } else if v.value.b {
      IdFits(p, g, e.thn, left, s1);
    } else {
      MaybeFits(p, g, e.els, left, s1);
    }
  }

  lemma {:induction false} AssignmentFits(p: Program, g: Typing, e: Expr, left: nat, st: State)
    requires (e.Assign? || e.Let?) && Regular(p, g) && RegularExpr(p, g, e) && EnvFits(st.env, g)
    requires EvalControl(p, e, left, st).0.Ok?
    ensures Good(g, EvalControl(p, e, left, st).0.value, None, EvalControl(p, e, left, st).1)
    decreases left, 5, 0
  {
    hide Regular, EnvFits, Good, InRange, EvalId, AssignName, Has;
    var from := if e.Assign? then e.rhs else e.init;
    var (v, s1) := EvalId(p, from, left, st);
    IdFits(p, g, from, left, st);
    GoodParts(g, v.value, g.expr(from), s1);
    UnitGood(g, s1);
    if e.Assign? {
      BindFits(s1.env, At(p, e.lhs).segments[0], v.value, g.expr(from), g);
      UnitGood(g, s1.(env := AssignName(s1.env, At(p, e.lhs).segments[0], v.value)));
    } else if e.pat.PBinding? {
      BindFits(s1.env, e.pat.name, v.value, g.expr(from), g);
      UnitGood(g, s1.(env := AssignName(s1.env, e.pat.name, v.value)));
    }
  }

  /**
  Every successful evaluation of such a program gives an in-range value, of the type the typing says,
  and leaves only such values in scope.
  */
  lemma IntegersStayInRange(p: Program, g: Typing, id: Id, st: State)
    requires Regular(p, g) && EnvFits(st.env, g) && Evaluate(p, id, st).0.Ok?
    ensures InRange(Evaluate(p, id, st).0.value, p.pointerWidth) && Has(Evaluate(p, id, st).0.value, g.expr(id))
    ensures EnvFits(Evaluate(p, id, st).1.env, g)
  {
    hide Regular, EnvFits, EvalId, InRange, Has;
    Widths(p, g);
    IdFits(p, g, id, MAX_EVAL_DEPTH, st);
    GoodParts(g, Evaluate(p, id, st).0.value, g.expr(id), Evaluate(p, id, st).1);
  }

  // ----- ranges outside those programs -----

  /** The last number a range counts to when nothing cuts it off. */
  function LastOf(end: int, inclusive: bool): int {
    if inclusive then end else end - 1
  }

  function Reached(from: int, last: int, budget: nat): int {
    if last < from + budget then last else from + budget
  }

  lemma {:induction false} CountUpExact(from: int, end: int, inclusive: bool, proto: Value, budget: nat,
                                        pointerWidth: nat)
    requires IsInteger(proto) && InRange(proto, pointerWidth) && Number(proto) <= from && end < TWO_127
    requires proto.UintV? ==> from >= 0
    ensures var last := LastOf(end, inclusive);
            AllInRange(CountUp(from, end, inclusive, proto, budget), pointerWidth) <==>
            last < from || InRange(OfType(Reached(from, last, budget), proto), pointerWidth)
    decreases budget
  {
    var all, last := CountUp(from, end, inclusive, proto, budget), LastOf(end, inclusive);
    if last >= from {
      assert all[0] == OfType(from, proto);
      if budget > 0 && last > from {
        CountUpExact(from + 1, end, inclusive, proto, budget - 1, pointerWidth);
        var rest := CountUp(from + 1, end, inclusive, proto, budget - 1);
        assert all == [all[0]] + rest;
        SplitFirst(all[0], rest, pointerWidth);
      } else if budget > 0 {
        assert from + 1 == TWO_127 || CountUp(from + 1, end, inclusive, proto, budget - 1) == [];
      }
    }
  }

  lemma SplitFirst(v: Value, rest: seq<Value>, pointerWidth: nat)
    ensures AllInRange([v] + rest, pointerWidth) <==> InRange(v, pointerWidth) && AllInRange(rest, pointerWidth)
  {
    hide InRange;
    var all := [v] + rest;
    if AllInRange(all, pointerWidth) {
      assert all[0] == v;
      forall k | 0 <= k < |rest|
        ensures InRange(rest[k], pointerWidth)
      {
        var next := k + 1;
        assert all[next] == rest[k];
      }
    }
  }

  /**
  Whatever the types of its bounds, a range gives in-range elements exactly when it is empty or the last
  number it reaches fits the type of its start.
  */
  lemma RangeElementsExact(x: Value, y: Value, inclusive: bool, pointerWidth: nat)
    requires IsInteger(x) && IsInteger(y) && InRange(x, pointerWidth) && InRange(y, pointerWidth)
    ensures var v, last := RangeV(Some(x), Some(y), inclusive), LastOf(Number(y), inclusive);
            && Elements(v).Ok?
            && (AllInRange(Elements(v).value, pointerWidth) <==>
                last < Number(x) || InRange(OfType(Reached(Number(x), last, MAX_ITERS), x), pointerWidth))
  {
    hide CountUp, AsI128, InRange;
    AsNumber(x, pointerWidth);
    AsNumber(y, pointerWidth);
    CountUpExact(Number(x), Number(y), inclusive, x, MAX_ITERS, pointerWidth);
  }

  /** So 250u8..300u32, which counts to 299 as a u8, leaves the range. */
  lemma MixedRangeOverflows()
    ensures var v := RangeV(Some(UintV(250, U8)), Some(UintV(300, U32)), false);
            Elements(v).Ok? && !AllInRange(Elements(v).value, 64)
  {
    hide CountUp, AsI128;
    RangeElementsExact(UintV(250, U8), UintV(300, U32), false, 64);
  }

  /**
  A longer range is cut off after one element more than the limit, without an error; so is one that
  includes the largest number there is, at which counting stands still.
  */
  lemma {:induction false} LongRangeCut(from: int, end: int, inclusive: bool, proto: Value, budget: nat)
    requires end < TWO_127
    ensures var n, endless := LastOf(end, inclusive) - from + 1, inclusive && end == TWO_127 - 1;
            |CountUp(from, end, inclusive, proto, budget)| ==
            if n <= 0 then 0 else if n <= budget && !endless then n else budget + 1
    decreases budget
  {
    if from <= LastOf(end, inclusive) && budget > 0 {
      LongRangeCut(if from + 1 < TWO_127 then from + 1 else from, end, inclusive, proto, budget - 1);
    }
  }
}
