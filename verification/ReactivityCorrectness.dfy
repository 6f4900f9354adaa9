/**
Noninterference: a slot whose reads do not interfere with a handler's writes shows the same value
before and after the handler, for every state, every event and every meaning of the host's
operators, calls and methods.
*/
module ReactivityCorrectness {
  import opened GsxExpr
  import opened GsxRun
  import opened ListOperations
  import opened Reactivity
  import opened ReactivitySets
  import opened Wrappers

  // ----- the fragments -----

  /**
  Expressions that leave the state alone. A strict one also keeps iter, len, get and contains off
  paths from the state parameter: the analysis computes such a receiver's place and drops it.
  */
  predicate Quiet(h: Host, e: Expr, strict: bool)
    decreases e, 0
  {
    match e
    case Var(_) => true
    case Lit(_) => true
    case Field(b, _) => Quiet(h, b, strict)
    case Index(b, i) => Quiet(h, b, strict) && Quiet(h, i, strict)
    case Call(name, args) => !h.callMutates(name) && AllQuiet(h, args, strict)
    case Method(recv, name, args) =>
      && !h.methodMutates(name) && Quiet(h, recv, strict) && AllQuiet(h, args, strict)
      && (strict && Asks(name) ==> ArgPlace(recv, h.param).None?)
    case Unary(op, inner) => op != RefMut && Quiet(h, inner, strict)
    case Binary(_, l, r) => Quiet(h, l, strict) && Quiet(h, r, strict)
    case If(cond, thn, els) => Quiet(h, cond, strict) && Quiet(h, thn, strict) && MaybeQuiet(h, els, strict)
    case Match(scrutinee, arms) => Quiet(h, scrutinee, strict) && ArmsQuiet(h, arms, strict)
    case For(_, iter, key, body) => Quiet(h, iter, strict) && MaybeQuiet(h, key, strict) && Quiet(h, body, strict)
    case Block(stmts, tail) => AllQuiet(h, stmts, strict) && MaybeQuiet(h, tail, strict)
    case Let(_, init) => Quiet(h, init, strict)
    case _ => false
  }

  predicate MaybeQuiet(h: Host, e: Option<Expr>, strict: bool)
    decreases e, 1
  {
    e.Some? ==> Quiet(h, e.value, strict)
  }

  predicate AllQuiet(h: Host, es: seq<Expr>, strict: bool)
    decreases es, 1
  {
    es == [] || (Quiet(h, es[0], strict) && AllQuiet(h, es[1..], strict))
  }

  predicate ArmsQuiet(h: Host, arms: seq<MatchArm>, strict: bool)
    decreases arms, 1
  {
    arms == [] ||
    (MaybeQuiet(h, arms[0].guard, strict) && Quiet(h, arms[0].body, strict) && ArmsQuiet(h, arms[1..], strict))
  }

  predicate SlotExpr(h: Host, e: Expr) {
    Quiet(h, e, true)
  }

  /**
  Handlers whose effects the analysis looks at: mutating calls and methods are among the listed
  names and get no `&mut` argument, and nothing with an effect hides in a receiver, base or index.
  */
  predicate HandlerExpr(h: Host, e: Expr)
    decreases e, 0
  {
    match e
    case Var(_) => true
    case Lit(_) => true
    case Field(b, _) => Quiet(h, b, false)
    case Index(b, i) => Quiet(h, b, false) && Quiet(h, i, false)
    case Call(name, args) =>
      (h.callMutates(name) ==> InPlaceOnLists(name) && NoneBorrowed(args)) && AllHandler(h, args)
    case Method(recv, name, args) =>
      (h.methodMutates(name) ==> InPlace(name)) && Quiet(h, recv, false) && AllHandler(h, args)
    case Unary(op, inner) => op != RefMut && HandlerExpr(h, inner)
    case Binary(_, l, r) => HandlerExpr(h, l) && HandlerExpr(h, r)
    case Assign(lhs, _, rhs) => Quiet(h, lhs, false) && HandlerExpr(h, rhs)
    case If(cond, thn, els) => HandlerExpr(h, cond) && HandlerExpr(h, thn) && MaybeHandler(h, els)
    case Match(scrutinee, arms) => HandlerExpr(h, scrutinee) && ArmsHandler(h, arms)
    case For(_, iter, key, body) => HandlerExpr(h, iter) && MaybeHandler(h, key) && HandlerExpr(h, body)
    case Block(stmts, tail) => AllHandler(h, stmts) && MaybeHandler(h, tail)
    case Let(_, init) => HandlerExpr(h, init)
    case _ => false
  }

  predicate MaybeHandler(h: Host, e: Option<Expr>)
    decreases e, 1
  {
    e.Some? ==> HandlerExpr(h, e.value)
  }

  predicate AllHandler(h: Host, es: seq<Expr>)
    decreases es, 1
  {
    es == [] || (HandlerExpr(h, es[0]) && AllHandler(h, es[1..]))
  }

  predicate ArmsHandler(h: Host, arms: seq<MatchArm>)
    decreases arms, 1
  {
    arms == [] || (MaybeHandler(h, arms[0].guard) && HandlerExpr(h, arms[0].body) && ArmsHandler(h, arms[1..]))
  }

  predicate NoneBorrowed(es: seq<Expr>) {
    es == [] || (!(es[0].Unary? && es[0].unop == RefMut) && NoneBorrowed(es[1..]))
  }

  // ----- concrete paths and the places of the analysis -----

  predicate StepMatches(st: Step, ps: PlaceStep) {
    match st
    case Member(f) => ps == FieldStep(f)
    case Element(_) => ps == IndexStep
  }

  /** The path is an instance of the place. */
  ghost predicate Matches(path: Path, steps: Steps) {
    |path| == |steps| && forall k :: 0 <= k < |path| ==> StepMatches(path[k], steps[k])
  }

  /** Some instance of the place lies above or below the path. */
  ghost predicate Touches(path: Path, steps: Steps) {
    forall k :: 0 <= k < |path| && k < |steps| ==> StepMatches(path[k], steps[k])
  }

  ghost predicate Clear(path: Path, written: set<Steps>) {
    forall w :: w in written ==> !Touches(path, w)
  }

  ghost predicate Agree(read: set<Steps>, s1: Value, s2: Value) {
    forall r, path :: r in read && Matches(path, r) ==> Get(s1, path) == Get(s2, path)
  }

  lemma AgreeSub(read: set<Steps>, sub: set<Steps>, s1: Value, s2: Value)
    requires Agree(read, s1, s2) && sub <= read
    ensures Agree(sub, s1, s2)
  {
  }

  lemma ClearSub(path: Path, written: set<Steps>, sub: set<Steps>)
    requires Clear(path, written) && sub <= written
    ensures Clear(path, sub)
  {
  }

  /** Places overlap exactly when some instance of one is a prefix of some instance of the other. */
  lemma OverlapExact(a: Steps, b: Steps)
    ensures Overlap(a, b) <==> exists x, y :: Matches(x, a) && Matches(y, b) && (x <= y || y <= x)
  {
    if Overlap(a, b) {
      var x, y := Instance(a), Instance(b);
      assert Matches(x, a) && Matches(y, b);
      assert if a <= b then x <= y else y <= x;
    }
    if x, y :| Matches(x, a) && Matches(y, b) && (x <= y || y <= x) {
      SameSteps(x, y, a, b);
    }
  }

  ghost function Instance(steps: Steps): Path {
    seq(|steps|, k requires 0 <= k < |steps| => if steps[k].FieldStep? then Member(steps[k].field) else Element(0))
  }

  lemma SameSteps(x: Path, y: Path, a: Steps, b: Steps)
    requires Matches(x, a) && Matches(y, b) && (x <= y || y <= x)
    ensures Overlap(a, b)
  {
    var n := if |a| < |b| then |a| else |b|;
    forall k | 0 <= k < n
      ensures a[k] == b[k]
    {
      assert StepMatches(x[k], a[k]) && StepMatches(y[k], b[k]) && x[k] == y[k];
    }
  }

  /** A path that is an instance of one place and touches another shows that the two overlap. */
  lemma TouchingOverlaps(path: Path, r: Steps, w: Steps)
    requires Matches(path, r) && Touches(path, w)
    ensures Overlap(r, w)
  {
    var n := if |r| < |w| then |r| else |w|;
    forall k | 0 <= k < n
      ensures r[k] == w[k]
    {
      assert StepMatches(path[k], r[k]) && StepMatches(path[k], w[k]);
    }
  }

  lemma {:induction false} SetElsewhere(v: Value, written: Path, x: Value, read: Path, k: nat)
    requires k < |written| && k < |read| && written[k] != read[k] && written[..k] == read[..k]
    ensures Get(Set(v, written, x), read) == Get(v, read)
    decreases k
  {
    if k > 0 {
      assert written[0] == written[..k][0] == read[..k][0] == read[0];
      assert written[1..][..k - 1] == written[..k][1..] && read[1..][..k - 1] == read[..k][1..];
      SetElsewhere(GetStep(v, written[0]), written[1..], x, read[1..], k - 1);
    } else {
      FirstStepElsewhere(v, written, x, read[0]);
    }
  }

  lemma FirstStepElsewhere(v: Value, written: Path, x: Value, st: Step)
    requires written != [] && written[0] != st
    ensures GetStep(Set(v, written, x), st) == GetStep(v, st)
  {
  }

  lemma StoreElsewhere(v: Value, written: Path, w: Steps, x: Value, read: Path)
    requires Matches(written, w) && !Touches(read, w)
    ensures Get(Set(v, written, x), read) == Get(v, read)
  {
    var j :| 0 <= j < |read| && j < |w| && !StepMatches(read[j], w[j]);
    assert StepMatches(written[j], w[j]);
    FirstDifference(written, read, j);
    var k :| 0 <= k <= j && written[k] != read[k] && written[..k] == read[..k];
    SetElsewhere(v, written, x, read, k);
  }

  lemma {:induction false} FirstDifference(a: Path, b: Path, j: nat)
    requires j < |a| && j < |b| && a[j] != b[j]
    ensures exists k :: 0 <= k <= j && a[k] != b[k] && a[..k] == b[..k]
    decreases j
  {
    if i :| 0 <= i < j && a[i] != b[i] {
      FirstDifference(a, b, i);
    } else {
      assert a[..j] == b[..j];
    }
  }

  // ----- quiet expressions leave the state alone -----

  lemma {:induction false} QuietKeeps(h: Host, e: Expr, strict: bool, m: Machine)
    requires Quiet(h, e, strict)
    ensures Run(h, e, m).1.state == m.state
    decreases e, 2
  {
    hide Lookup, Load, Resolve, ArgPlace, Asks, RunMutator, StoreArgs, ResolveVar;
    hide RunAll, RunArms, RunItems, RunMaybe, AllQuiet, ArmsQuiet, MaybeQuiet;
    match e
    case Var(_) =>
    case Lit(_) =>
    case Field(b, _) => QuietKeeps(h, b, strict, m);
    case Index(b, i) =>
      QuietKeeps(h, i, strict, m);
      QuietKeeps(h, b, strict, Run(h, i, m).1);
    case Call(_, args) => AllQuietKeeps(h, args, strict, m);
    case Method(recv, _, args) =>
      QuietKeeps(h, recv, strict, m);
      AllQuietKeeps(h, args, strict, Run(h, recv, m).1);
    case Unary(_, inner) => QuietKeeps(h, inner, strict, m);
    case Binary(_, l, r) =>
      QuietKeeps(h, l, strict, m);
      QuietKeeps(h, r, strict, Run(h, l, m).1);
    case If(_, _, _) => ControlQuietKeeps(h, e, strict, m);
    case Match(_, _) => ControlQuietKeeps(h, e, strict, m);
    case For(_, _, _, _) => ControlQuietKeeps(h, e, strict, m);
    case Block(_, _) => ControlQuietKeeps(h, e, strict, m);
    case Let(_, init) => QuietKeeps(h, init, strict, m);
  }

  lemma {:induction false} ControlQuietKeeps(h: Host, e: Expr, strict: bool, m: Machine)
    requires Quiet(h, e, strict) && (e.If? || e.Match? || e.For? || e.Block?)
    ensures Run(h, e, m).1.state == m.state
    decreases e, 1, 0
  {
    hide RunAll, RunArms, RunItems, RunMaybe, AllQuiet, ArmsQuiet, MaybeQuiet;
    if e.If? {
      var m1 := Run(h, e.cond, m).1;
      QuietKeeps(h, e.cond, strict, m);
      QuietKeeps(h, e.thn, strict, m1);
      MaybeQuietKeeps(h, e.els, strict, m1);
    } else if e.Match? {
      QuietKeeps(h, e.scrutinee, strict, m);
      ArmsQuietKeep(h, e.arms, strict, Run(h, e.scrutinee, m).0, Run(h, e.scrutinee, m).1);
    } else if e.For? {
      QuietKeeps(h, e.iter, strict, m);
      ItemsQuietKeep(h, e, strict, h.items(Run(h, e.iter, m).0), Run(h, e.iter, m).1);
    } else {
      AllQuietKeeps(h, e.stmts, strict, m);
      MaybeQuietKeeps(h, e.tail, strict, RunAll(h, e.stmts, m).1);
    }
  }

  lemma {:induction false} MaybeQuietKeeps(h: Host, e: Option<Expr>, strict: bool, m: Machine)
    requires MaybeQuiet(h, e, strict)
    ensures RunMaybe(h, e, m).1.state == m.state
    decreases e, 3
  {
    if e.Some? {
      QuietKeeps(h, e.value, strict, m);
    }
  }

  lemma {:induction false} AllQuietKeeps(h: Host, es: seq<Expr>, strict: bool, m: Machine)
    requires AllQuiet(h, es, strict)
    ensures RunAll(h, es, m).1.state == m.state
    decreases es, 3
  {
    if es != [] {
      QuietKeeps(h, es[0], strict, m);
      AllQuietKeeps(h, es[1..], strict, Run(h, es[0], m).1);
    }
  }

  lemma {:induction false} ArmsQuietKeep(h: Host, arms: seq<MatchArm>, strict: bool, v: Value, m: Machine)
    requires ArmsQuiet(h, arms, strict)
    ensures RunArms(h, arms, v, m).1.state == m.state
    decreases arms, 3
  {
    hide Run, RunMaybe, Quiet, MaybeQuiet;
    if arms != [] {
      var bs := h.bind(arms[0].pat, v);
      if bs.None? {
        ArmsQuietKeep(h, arms[1..], strict, v, m);
      } else {
        MaybeQuietKeeps(h, arms[0].guard, strict, Push(m, bs.value));
        var m1 := RunMaybe(h, arms[0].guard, Push(m, bs.value)).1;
        QuietKeeps(h, arms[0].body, strict, m1);
        ArmsQuietKeep(h, arms[1..], strict, v, Leave(m1, |m.locals|));
      }
    }
  }

  lemma {:induction false} ItemsQuietKeep(h: Host, e: Expr, strict: bool, items: seq<Value>, m: Machine)
    requires e.For? && MaybeQuiet(h, e.key, strict) && Quiet(h, e.body, strict)
    ensures RunItems(h, e, items, m).1.state == m.state
    decreases e, 0, |items|
  {
    hide Run, RunMaybe, Quiet, MaybeQuiet;
    if items != [] {
      var bs := h.bind(e.pat, items[0]);
      if bs.None? {
        ItemsQuietKeep(h, e, strict, items[1..], m);
      } else {
        MaybeQuietKeeps(h, e.key, strict, Push(m, bs.value));
        var m1 := RunMaybe(h, e.key, Push(m, bs.value)).1;
        QuietKeeps(h, e.body, strict, m1);
        ItemsQuietKeep(h, e, strict, items[1..], Leave(Run(h, e.body, m1).1, |m.locals|));
      }
    }
  }

  // ----- slots see only what they read -----

  /** Two runs went the same way: same locals after, and both states as before. */
  ghost predicate Alike(m1: Machine, n1: Machine, m2: Machine, n2: Machine) {
    n1.locals == n2.locals && n1.state == m1.state && n2.state == m2.state
  }

  ghost predicate SameRun(h: Host, e: Expr, m1: Machine, m2: Machine) {
    Run(h, e, m1).0 == Run(h, e, m2).0 && Alike(m1, Run(h, e, m1).1, m2, Run(h, e, m2).1)
  }

  lemma {:induction false} GetBelow(v: Value, path: Path, st: Step)
    ensures Get(v, path + [st]) == GetStep(Get(v, path), st)
    decreases |path|
  {
    if path == [] {
      assert ([] + [st])[1..] == [];
    } else {
      assert (path + [st])[1..] == path[1..] + [st];
      GetBelow(GetStep(v, path[0]), path[1..], st);
    }
  }

  lemma LoadBelow(m: Machine, t: Target, st: Step)
    requires t.InLocal? ==> t.slot < |m.locals|
    ensures t != Nowhere ==> Load(m, Below(t, st)) == GetStep(Load(m, t), st)
  {
    if t.InState? { GetBelow(m.state, t.path, st); }
    if t.InLocal? { GetBelow(m.locals[t.slot].1, t.path, st); }
  }

  /** A path from the state parameter resolved the same way by both runs, to an instance of its place. */
  ghost predicate SamePlace(h: Host, e: Expr, m1: Machine, m2: Machine) {
    var t, n1, n2 := Resolve(h, e, m1), Run(h, e, m1).1, Run(h, e, m2).1;
    && t == Resolve(h, e, m2) && t != Nowhere && Alike(m1, n1, m2, n2)
    && Run(h, e, m1).0 == Load(n1, t) && Run(h, e, m2).0 == Load(n2, t)
    && (t.InState? ==> Matches(t.path, ChainSteps(e, h.param)))
    && (t.InLocal? ==> t.slot < |n1.locals|)
  }

  /** Reading the whole of such a place makes the runs the same. */
  lemma PlaceRead(h: Host, e: Expr, m1: Machine, m2: Machine, read: set<Steps>)
    requires SamePlace(h, e, m1, m2) && Agree(read, m1.state, m2.state) && ChainSteps(e, h.param) in read
    ensures SameRun(h, e, m1, m2)
  {
    hide Resolve, Run, ChainSteps;
  }

  lemma {:induction false} LookupBound(locals: Bindings, name: string)
    ensures Lookup(locals, name).Some? ==> Lookup(locals, name).value < |locals|
  {
    if locals != [] {
      LookupBound(locals[..|locals| - 1], name);
    }
  }

  lemma ChainVar(h: Host, e: Expr, m1: Machine, m2: Machine)
    requires e.Var? && m1.locals == m2.locals
    ensures if ArgPlace(e, h.param).Some? then SamePlace(h, e, m1, m2) else SameRun(h, e, m1, m2)
  {
    LookupBound(m1.locals, e.name);
  }

  lemma {:induction false} ChainStable(h: Host, full: bool, e: Expr, m1: Machine, m2: Machine)
    requires Quiet(h, e, !full) && m1.locals == m2.locals && Agree(ChainReads(e, h.param, full), m1.state, m2.state)
    ensures if ArgPlace(e, h.param).Some? then SamePlace(h, e, m1, m2) else SameRun(h, e, m1, m2)
    decreases e, 5
  {
    hide Agree, SamePlace, SameRun;
    if e.Var? {
      ChainVar(h, e, m1, m2);
    } else if e.Field? {
      ChainStable(h, full, e.base, m1, m2);
      ChainField(h, e, m1, m2);
    } else if e.Index? {
      AgreeSub(ChainReads(e, h.param, full), ReadSteps(e.index, h.param, full), m1.state, m2.state);
      AgreeSub(ChainReads(e, h.param, full), ChainReads(e.base, h.param, full), m1.state, m2.state);
      SlotStable(h, full, e.index, m1, m2);
      SameRunGives(h, e.index, m1, m2);
      ChainStable(h, full, e.base, Run(h, e.index, m1).1, Run(h, e.index, m2).1);
      ChainIndex(h, e, m1, m2);
    } else {
      SlotStable(h, full, e, m1, m2);
    }
  }

  lemma SameRunGives(h: Host, e: Expr, m1: Machine, m2: Machine)
    requires SameRun(h, e, m1, m2)
    ensures Run(h, e, m1).0 == Run(h, e, m2).0 && Alike(m1, Run(h, e, m1).1, m2, Run(h, e, m2).1)
  {
  }

  lemma ChainField(h: Host, e: Expr, m1: Machine, m2: Machine)
    requires e.Field?
    requires if ArgPlace(e.base, h.param).Some? then SamePlace(h, e.base, m1, m2) else SameRun(h, e.base, m1, m2)
    ensures if ArgPlace(e, h.param).Some? then SamePlace(h, e, m1, m2) else SameRun(h, e, m1, m2)
  {
    if ArgPlace(e.base, h.param).Some? {
      var t := Resolve(h, e.base, m1);
      LoadBelow(Run(h, e.base, m1).1, t, Member(e.name));
      LoadBelow(Run(h, e.base, m2).1, t, Member(e.name));
    }
  }

  lemma ChainIndex(h: Host, e: Expr, m1: Machine, m2: Machine)
    requires e.Index? && SameRun(h, e.index, m1, m2)
    requires var n1, n2 := Run(h, e.index, m1).1, Run(h, e.index, m2).1;
             if ArgPlace(e.base, h.param).Some? then SamePlace(h, e.base, n1, n2) else SameRun(h, e.base, n1, n2)
    ensures if ArgPlace(e, h.param).Some? then SamePlace(h, e, m1, m2) else SameRun(h, e, m1, m2)
  {
    if ArgPlace(e.base, h.param).Some? {
      var n1, n2 := Run(h, e.index, m1).1, Run(h, e.index, m2).1;
      var t, st := Resolve(h, e.base, n1), Element(h.index(Run(h, e.index, m1).0));
      LoadBelow(Run(h, e.base, n1).1, t, st);
      LoadBelow(Run(h, e.base, n2).1, t, st);
    }
  }

  /** A field or element read is a place of its own when its base is one. */
  lemma PathStable(h: Host, full: bool, e: Expr, m1: Machine, m2: Machine)
    requires (e.Field? || e.Index?) && Quiet(h, e, !full) && m1.locals == m2.locals
    requires Agree(ReadSteps(e, h.param, full), m1.state, m2.state)
    requires if ArgPlace(e, h.param).Some? then SamePlace(h, e, m1, m2) else SameRun(h, e, m1, m2)
    ensures SameRun(h, e, m1, m2)
  {
    hide SamePlace, SameRun, Agree, Quiet, Run;
    if ArgPlace(e, h.param).Some? {
      ArgIsChain(e, h.param, full);
      PlaceRead(h, e, m1, m2, ReadSteps(e, h.param, full));
    }
  }

  lemma {:induction false} SlotStable(h: Host, full: bool, e: Expr, m1: Machine, m2: Machine)
    requires Quiet(h, e, !full) && m1.locals == m2.locals && Agree(ReadSteps(e, h.param, full), m1.state, m2.state)
    ensures SameRun(h, e, m1, m2)
    decreases e, 4
  {
    hide Agree, SamePlace, SameRun, ArgPlace, SafeRead, Resolve, ChainSteps;
    hide RunAll, RunArms, RunItems, RunMaybe, AllQuiet, ArmsQuiet, MaybeQuiet, RunMutator, StoreArgs, ResolveVar;
    match e
    case Var(_) => VarStable(h, full, e, m1, m2);
    case Lit(_) => SameRunIf(h, e, m1, m2);
    case Field(b, _) =>
      AgreeSub(ReadSteps(e, h.param, full), ChainReads(e, h.param, full), m1.state, m2.state);
      ChainStable(h, full, b, m1, m2);
      ChainField(h, e, m1, m2);
      PathStable(h, full, e, m1, m2);
    case Index(b, i) => IndexStable(h, full, e, m1, m2);
    case Call(_, args) =>
      AllSlotStable(h, full, args, m1, m2);
      SameRunIf(h, e, m1, m2);
    case Method(recv, _, args) => MethodStable(h, full, e, m1, m2);
    case Unary(_, inner) =>
      SlotStable(h, full, inner, m1, m2);
      SameRunGives(h, inner, m1, m2);
      SameRunIf(h, e, m1, m2);
    case Binary(_, _, _) => BinaryStable(h, full, e, m1, m2);
    case If(_, _, _) => IfStable(h, full, e, m1, m2);
    case Match(_, _) => MatchStable(h, full, e, m1, m2);
    case For(_, _, _, _) => ForStable(h, full, e, m1, m2);
    case Block(_, _) => BlockStable(h, full, e, m1, m2);
    case Let(_, init) =>
      SlotStable(h, full, init, m1, m2);
      SameRunGives(h, init, m1, m2);
      SameRunIf(h, e, m1, m2);
  }

  lemma SameRunIf(h: Host, e: Expr, m1: Machine, m2: Machine)
    requires Run(h, e, m1).0 == Run(h, e, m2).0 && Alike(m1, Run(h, e, m1).1, m2, Run(h, e, m2).1)
    ensures SameRun(h, e, m1, m2)
  {
  }

  lemma VarStable(h: Host, full: bool, e: Expr, m1: Machine, m2: Machine)
    requires e.Var? && m1.locals == m2.locals && Agree(ReadSteps(e, h.param, full), m1.state, m2.state)
    ensures SameRun(h, e, m1, m2)
  {
    hide Lookup;
    var r: Steps, path: Path := [], [];
    assert Matches(path, r);
    if e.name == h.param {
      assert r in ReadSteps(e, h.param, full) && Get(m1.state, path) == Get(m2.state, path);
    }
  }

  lemma {:induction false} IndexStable(h: Host, full: bool, e: Expr, m1: Machine, m2: Machine)
    requires e.Index? && Quiet(h, e, !full) && m1.locals == m2.locals
             && Agree(ReadSteps(e, h.param, full), m1.state, m2.state)
    ensures SameRun(h, e, m1, m2)
    decreases e, 3
  {
    hide Agree, SamePlace, SameRun, Run, ArgPlace;
    AgreeSub(ReadSteps(e, h.param, full), ReadSteps(e.index, h.param, full), m1.state, m2.state);
    AgreeSub(ReadSteps(e, h.param, full), ChainReads(e.base, h.param, full), m1.state, m2.state);
    SlotStable(h, full, e.index, m1, m2);
    SameRunGives(h, e.index, m1, m2);
    ChainStable(h, full, e.base, Run(h, e.index, m1).1, Run(h, e.index, m2).1);
    ChainIndex(h, e, m1, m2);
    PathStable(h, full, e, m1, m2);
  }

  lemma {:induction false} MethodStable(h: Host, full: bool, e: Expr, m1: Machine, m2: Machine)
    requires e.Method? && Quiet(h, e, !full) && m1.locals == m2.locals
             && Agree(ReadSteps(e, h.param, full), m1.state, m2.state)
    ensures SameRun(h, e, m1, m2)
    decreases e, 3
  {
    hide Agree, SamePlace, SameRun, ArgPlace, Resolve, ChainSteps, ChainReads, RunAll, AllReads, RunMutator, SafeRead,
         Asks, InPlace, InPlaceOnLists, MutatingCall, MutatingMethod;
    var all := ReadSteps(e, h.param, full);
    ListedNames(e.name);
    AgreeSub(all, ChainReads(e.recv, h.param, full), m1.state, m2.state);
    AgreeSub(all, AllReads(e.args, h.param, full), m1.state, m2.state);
    ChainStable(h, full, e.recv, m1, m2);
    if ArgPlace(e.recv, h.param).Some? {
      PlaceRead(h, e.recv, m1, m2, all);
    }
    SameRunGives(h, e.recv, m1, m2);
    AllSlotStable(h, full, e.args, Run(h, e.recv, m1).1, Run(h, e.recv, m2).1);
    SameRunIf(h, e, m1, m2);
  }

  lemma {:induction false} BinaryStable(h: Host, full: bool, e: Expr, m1: Machine, m2: Machine)
    requires e.Binary? && Quiet(h, e, !full) && m1.locals == m2.locals
             && Agree(ReadSteps(e, h.param, full), m1.state, m2.state)
    ensures SameRun(h, e, m1, m2)
    decreases e, 3
  {
    hide Agree, SameRun;
    AgreeSub(ReadSteps(e, h.param, full), ReadSteps(e.left, h.param, full), m1.state, m2.state);
    AgreeSub(ReadSteps(e, h.param, full), ReadSteps(e.right, h.param, full), m1.state, m2.state);
    SlotStable(h, full, e.left, m1, m2);
    SameRunGives(h, e.left, m1, m2);
    SlotStable(h, full, e.right, Run(h, e.left, m1).1, Run(h, e.left, m2).1);
    SameRunGives(h, e.right, Run(h, e.left, m1).1, Run(h, e.left, m2).1);
    SameRunIf(h, e, m1, m2);
  }

  lemma {:induction false} IfStable(h: Host, full: bool, e: Expr, m1: Machine, m2: Machine)
    requires e.If? && Quiet(h, e, !full) && m1.locals == m2.locals
             && Agree(ReadSteps(e, h.param, full), m1.state, m2.state)
    ensures SameRun(h, e, m1, m2)
    decreases e, 3
  {
    hide Agree, SameRun, RunMaybe, MaybeReads, MaybeQuiet;
    var all := ReadSteps(e, h.param, full);
    AgreeSub(all, ReadSteps(e.cond, h.param, full), m1.state, m2.state);
    AgreeSub(all, ReadSteps(e.thn, h.param, full), m1.state, m2.state);
    AgreeSub(all, MaybeReads(e.els, h.param, full), m1.state, m2.state);
    SlotStable(h, full, e.cond, m1, m2);
    SameRunGives(h, e.cond, m1, m2);
    var n1, n2 := Run(h, e.cond, m1).1, Run(h, e.cond, m2).1;
    SlotStable(h, full, e.thn, n1, n2);
    SameRunGives(h, e.thn, n1, n2);
    MaybeSlotStable(h, full, e.els, n1, n2);
    SameRunIf(h, e, m1, m2);
  }

  lemma {:induction false} MatchStable(h: Host, full: bool, e: Expr, m1: Machine, m2: Machine)
    requires e.Match? && Quiet(h, e, !full) && m1.locals == m2.locals
             && Agree(ReadSteps(e, h.param, full), m1.state, m2.state)
    ensures SameRun(h, e, m1, m2)
    decreases e, 3
  {
    hide Agree, SameRun, RunArms, ArmReads, ArmsQuiet;
    AgreeSub(ReadSteps(e, h.param, full), ReadSteps(e.scrutinee, h.param, full), m1.state, m2.state);
    AgreeSub(ReadSteps(e, h.param, full), ArmReads(e.arms, h.param, full), m1.state, m2.state);
    SlotStable(h, full, e.scrutinee, m1, m2);
    SameRunGives(h, e.scrutinee, m1, m2);
    ArmsStable(h, full, e.arms, Run(h, e.scrutinee, m1).0, Run(h, e.scrutinee, m1).1, Run(h, e.scrutinee, m2).1);
    SameRunIf(h, e, m1, m2);
  }

  lemma {:induction false} ForStable(h: Host, full: bool, e: Expr, m1: Machine, m2: Machine)
    requires e.For? && Quiet(h, e, !full) && m1.locals == m2.locals
             && Agree(ReadSteps(e, h.param, full), m1.state, m2.state)
    ensures SameRun(h, e, m1, m2)
    decreases e, 3
  {
    hide Agree, SameRun, RunItems, MaybeReads, MaybeQuiet;
    var all := ReadSteps(e, h.param, full);
    AgreeSub(all, ReadSteps(e.iter, h.param, full), m1.state, m2.state);
    AgreeSub(all, MaybeReads(e.key, h.param, full), m1.state, m2.state);
    AgreeSub(all, ReadSteps(e.body, h.param, full), m1.state, m2.state);
    SlotStable(h, full, e.iter, m1, m2);
    SameRunGives(h, e.iter, m1, m2);
    ItemsStable(h, full, e, h.items(Run(h, e.iter, m1).0), Run(h, e.iter, m1).1, Run(h, e.iter, m2).1);
    SameRunIf(h, e, m1, m2);
  }

  lemma {:induction false} BlockStable(h: Host, full: bool, e: Expr, m1: Machine, m2: Machine)
    requires e.Block? && Quiet(h, e, !full) && m1.locals == m2.locals
             && Agree(ReadSteps(e, h.param, full), m1.state, m2.state)
    ensures SameRun(h, e, m1, m2)
    decreases e, 3
  {
    hide Agree, SameRun, RunAll, RunMaybe, AllReads, MaybeReads, AllQuiet, MaybeQuiet;
    AgreeSub(ReadSteps(e, h.param, full), AllReads(e.stmts, h.param, full), m1.state, m2.state);
    AgreeSub(ReadSteps(e, h.param, full), MaybeReads(e.tail, h.param, full), m1.state, m2.state);
    AllSlotStable(h, full, e.stmts, m1, m2);
    MaybeSlotStable(h, full, e.tail, RunAll(h, e.stmts, m1).1, RunAll(h, e.stmts, m2).1);
    SameRunIf(h, e, m1, m2);
  }

  lemma {:induction false} MaybeSlotStable(h: Host, full: bool, e: Option<Expr>, m1: Machine, m2: Machine)
    requires MaybeQuiet(h, e, !full) && m1.locals == m2.locals
             && Agree(MaybeReads(e, h.param, full), m1.state, m2.state)
    ensures RunMaybe(h, e, m1).0 == RunMaybe(h, e, m2).0
    ensures Alike(m1, RunMaybe(h, e, m1).1, m2, RunMaybe(h, e, m2).1)
    decreases e, 6
  {
    hide Agree;
    if e.Some? {
      SlotStable(h, full, e.value, m1, m2);
    }
  }

  lemma {:induction false} AllSlotStable(h: Host, full: bool, es: seq<Expr>, m1: Machine, m2: Machine)
    requires AllQuiet(h, es, !full) && m1.locals == m2.locals && Agree(AllReads(es, h.param, full), m1.state, m2.state)
    ensures RunAll(h, es, m1).0 == RunAll(h, es, m2).0
    ensures Alike(m1, RunAll(h, es, m1).1, m2, RunAll(h, es, m2).1)
    decreases es, 6
  {
    hide Agree, Run;
    if es != [] {
      AgreeSub(AllReads(es, h.param, full), ReadSteps(es[0], h.param, full), m1.state, m2.state);
      AgreeSub(AllReads(es, h.param, full), AllReads(es[1..], h.param, full), m1.state, m2.state);
      SlotStable(h, full, es[0], m1, m2);
      AllSlotStable(h, full, es[1..], Run(h, es[0], m1).1, Run(h, es[0], m2).1);
    }
  }

  lemma {:induction false} ArmsStable(h: Host, full: bool, arms: seq<MatchArm>, v: Value, m1: Machine, m2: Machine)
    requires ArmsQuiet(h, arms, !full) && m1.locals == m2.locals
             && Agree(ArmReads(arms, h.param, full), m1.state, m2.state)
    ensures RunArms(h, arms, v, m1).0 == RunArms(h, arms, v, m2).0
    ensures Alike(m1, RunArms(h, arms, v, m1).1, m2, RunArms(h, arms, v, m2).1)
    decreases arms, 6
  {
    hide Agree, Run, RunMaybe, Quiet, MaybeQuiet, ReadSteps, MaybeReads;
    if arms != [] {
      var arm, all, depth := arms[0], ArmReads(arms, h.param, full), |m1.locals|;
      AgreeSub(all, MaybeReads(arm.guard, h.param, full), m1.state, m2.state);
      AgreeSub(all, ReadSteps(arm.body, h.param, full), m1.state, m2.state);
      AgreeSub(all, ArmReads(arms[1..], h.param, full), m1.state, m2.state);
      var bs := h.bind(arm.pat, v);
      if bs.None? {
        ArmsStable(h, full, arms[1..], v, m1, m2);
      } else {
        var p1, p2 := Push(m1, bs.value), Push(m2, bs.value);
        MaybeSlotStable(h, full, arm.guard, p1, p2);
        var q1, q2 := RunMaybe(h, arm.guard, p1).1, RunMaybe(h, arm.guard, p2).1;
        if arm.guard.Some? && !h.truthy(RunMaybe(h, arm.guard, p1).0) {
          ArmsStable(h, full, arms[1..], v, Leave(q1, depth), Leave(q2, depth));
        } else {
          SlotStable(h, full, arm.body, q1, q2);
        }
      }
    }
  }

  lemma {:induction false} ItemsStable(h: Host, full: bool, e: Expr, items: seq<Value>, m1: Machine, m2: Machine)
    requires e.For? && MaybeQuiet(h, e.key, !full) && Quiet(h, e.body, !full) && m1.locals == m2.locals
    requires Agree(MaybeReads(e.key, h.param, full), m1.state, m2.state)
             && Agree(ReadSteps(e.body, h.param, full), m1.state, m2.state)
    ensures RunItems(h, e, items, m1).0 == RunItems(h, e, items, m2).0
    ensures Alike(m1, RunItems(h, e, items, m1).1, m2, RunItems(h, e, items, m2).1)
    decreases e, 2, |items|
  {
    hide Agree, Run, RunMaybe, Quiet, MaybeQuiet, ReadSteps, MaybeReads;
    if items != [] {
      var bs, depth := h.bind(e.pat, items[0]), |m1.locals|;
      if bs.None? {
        ItemsStable(h, full, e, items[1..], m1, m2);
      } else {
        var p1, p2 := Push(m1, bs.value), Push(m2, bs.value);
        MaybeSlotStable(h, full, e.key, p1, p2);
        var q1, q2 := RunMaybe(h, e.key, p1).1, RunMaybe(h, e.key, p2).1;
        SlotStable(h, full, e.body, q1, q2);
        ItemsStable(h, full, e, items[1..], Leave(Run(h, e.body, q1).1, depth), Leave(Run(h, e.body, q2).1, depth));
      }
    }
  }

  // ----- everything a handler does -----

  predicate IsPath(e: Expr) {
    e.Var? || e.Field? || e.Index?
  }

  /** What stands behind a `&mut`. */
  function Unborrowed(e: Expr): Expr {
    if e.Unary? && e.unop == RefMut then e.inner else e
  }

  /**
  Handlers as the reference runs them: any effect anywhere, except that a place that is written is
  itself found without one.
  */
  predicate Covered(h: Host, e: Expr)
    decreases e, 0
  {
    match e
    case Var(_) => true
    case Lit(_) => true
    case Field(b, _) => Covered(h, b)
    case Index(b, i) => Covered(h, b) && Covered(h, i)
    case Call(name, args) => (h.callMutates(name) ==> PlacesQuiet(h, args)) && AllCovered(h, args)
    case Method(recv, name, args) =>
      (h.methodMutates(name) && IsPath(recv) ==> Quiet(h, recv, false)) && Covered(h, recv) && AllCovered(h, args)
    case Unary(_, inner) => Covered(h, inner)
    case Binary(_, l, r) => Covered(h, l) && Covered(h, r)
    case Assign(lhs, _, rhs) => Quiet(h, lhs, false) && Covered(h, rhs)
    case If(cond, thn, els) => Covered(h, cond) && Covered(h, thn) && MaybeCovered(h, els)
    case Match(scrutinee, arms) => Covered(h, scrutinee) && ArmsCovered(h, arms)
    case For(_, iter, key, body) => Covered(h, iter) && MaybeCovered(h, key) && Covered(h, body)
    case Block(stmts, tail) => AllCovered(h, stmts) && MaybeCovered(h, tail)
    case Let(_, init) => Covered(h, init)
    case _ => false
  }

  predicate PlacesQuiet(h: Host, es: seq<Expr>) {
    es == [] || ((IsPath(Unborrowed(es[0])) ==> Quiet(h, Unborrowed(es[0]), false)) && PlacesQuiet(h, es[1..]))
  }

  predicate MaybeCovered(h: Host, e: Option<Expr>)
    decreases e, 1
  {
    e.Some? ==> Covered(h, e.value)
  }

  predicate AllCovered(h: Host, es: seq<Expr>)
    decreases es, 1
  {
    es == [] || (Covered(h, es[0]) && AllCovered(h, es[1..]))
  }

  predicate ArmsCovered(h: Host, arms: seq<MatchArm>)
    decreases arms, 1
  {
    arms == [] || (MaybeCovered(h, arms[0].guard) && Covered(h, arms[0].body) && ArmsCovered(h, arms[1..]))
  }

  /** The places among the arguments, behind `&mut` or not. */
  function BorrowedSteps(es: seq<Expr>, param: string): set<Steps> {
    if es == [] then {} else ArgSteps(Unborrowed(es[0]), param) + BorrowedSteps(es[1..], param)
  }

  /** The paths of all places a handler writes, wherever in it: the write set as it should be. */
  function Effects(h: Host, e: Expr): set<Steps>
    decreases e, 0
  {
    match e
    case Field(b, _) => Effects(h, b)
    case Index(b, i) => Effects(h, i) + Effects(h, b)
    case Call(name, args) => (if h.callMutates(name) then BorrowedSteps(args, h.param) else {}) + AllEffects(h, args)
    case Method(recv, name, args) =>
      (if h.methodMutates(name) then ArgSteps(recv, h.param) else {}) + Effects(h, recv) + AllEffects(h, args)
    case Unary(_, inner) => Effects(h, inner)
    case Binary(_, l, r) => Effects(h, l) + Effects(h, r)
    case Assign(lhs, _, rhs) => ArgSteps(lhs, h.param) + Effects(h, rhs)
    case If(cond, thn, els) => Effects(h, cond) + Effects(h, thn) + MaybeEffects(h, els)
    case Match(scrutinee, arms) => Effects(h, scrutinee) + ArmEffects(h, arms)
    case For(_, iter, key, body) => Effects(h, iter) + MaybeEffects(h, key) + Effects(h, body)
    case Block(stmts, tail) => AllEffects(h, stmts) + MaybeEffects(h, tail)
    case Let(_, init) => Effects(h, init)
    case _ => {}
  }

  function MaybeEffects(h: Host, e: Option<Expr>): set<Steps>
    decreases e, 1
  {
    if e.Some? then Effects(h, e.value) else {}
  }

  function AllEffects(h: Host, es: seq<Expr>): set<Steps>
    decreases es, 1
  {
    if es == [] then {} else Effects(h, es[0]) + AllEffects(h, es[1..])
  }

  function ArmEffects(h: Host, arms: seq<MatchArm>): set<Steps>
    decreases arms, 1
  {
    if arms == [] then {}
    else MaybeEffects(h, arms[0].guard) + Effects(h, arms[0].body) + ArmEffects(h, arms[1..])
  }

  // ----- handlers change only what they write -----

  lemma {:induction false} ResolveMatches(h: Host, e: Expr, m: Machine)
    ensures var t := Resolve(h, e, m);
            t.InState? ==> ArgPlace(e, h.param).Some? && Matches(t.path, ArgPlace(e, h.param).value.steps)
    decreases e
  {
    hide Lookup, Run;
    if e.Field? {
      ResolveMatches(h, e.base, m);
    } else if e.Index? {
      ResolveMatches(h, e.base, Run(h, e.index, m).1);
    }
  }

  lemma StoreSpares(m: Machine, t: Target, w: Steps, x: Value, path: Path)
    requires t.InState? ==> Matches(t.path, w) && !Touches(path, w)
    ensures Get(Store(m, t, x).state, path) == Get(m.state, path)
  {
    if t.InState? {
      StoreElsewhere(m.state, t.path, w, x, path);
    }
  }

  lemma {:induction false} HandlerSpares(h: Host, e: Expr, m: Machine, path: Path)
    requires Covered(h, e) && Clear(path, Effects(h, e))
    ensures Get(Run(h, e, m).1.state, path) == Get(m.state, path)
    decreases e, 4
  {
    hide Clear, Get, ArgPlace, Resolve, ArgSteps, BorrowedSteps, Load;
    hide RunAll, RunArms, RunItems, RunMaybe, AllCovered, ArmsCovered, MaybeCovered, RunMutator, StoreArgs, ResolveVar;
    hide AllEffects, ArmEffects, MaybeEffects, Quiet;
    match e
    case Var(_) =>
    case Lit(_) =>
    case Field(b, _) => HandlerSpares(h, b, m, path);
    case Index(b, i) =>
      ClearSub(path, Effects(h, e), Effects(h, i));
      ClearSub(path, Effects(h, e), Effects(h, b));
      HandlerSpares(h, i, m, path);
      HandlerSpares(h, b, Run(h, i, m).1, path);
    case Call(_, args) => CallSpares(h, e, m, path);
    case Method(recv, _, args) => MethodSpares(h, e, m, path);
    case Unary(_, inner) => HandlerSpares(h, inner, m, path);
    case Binary(_, l, r) =>
      ClearSub(path, Effects(h, e), Effects(h, l));
      ClearSub(path, Effects(h, e), Effects(h, r));
      HandlerSpares(h, l, m, path);
      HandlerSpares(h, r, Run(h, l, m).1, path);
    case Assign(_, _, _) => AssignSpares(h, e, m, path);
    case If(_, _, _) => IfSpares(h, e, m, path);
    case Match(scrutinee, arms) =>
      ClearSub(path, Effects(h, e), Effects(h, scrutinee));
      ClearSub(path, Effects(h, e), ArmEffects(h, arms));
      HandlerSpares(h, scrutinee, m, path);
      ArmsSpare(h, arms, Run(h, scrutinee, m).0, Run(h, scrutinee, m).1, path);
    case For(_, iter, key, body) =>
      ClearSub(path, Effects(h, e), Effects(h, iter));
      ClearSub(path, Effects(h, e), MaybeEffects(h, key));
      ClearSub(path, Effects(h, e), Effects(h, body));
      HandlerSpares(h, iter, m, path);
      ItemsSpare(h, e, h.items(Run(h, iter, m).0), Run(h, iter, m).1, path);
    case Block(stmts, tail) =>
      ClearSub(path, Effects(h, e), AllEffects(h, stmts));
      ClearSub(path, Effects(h, e), MaybeEffects(h, tail));
      AllSpare(h, stmts, m, path);
      MaybeSpares(h, tail, RunAll(h, stmts, m).1, path);
    case Let(_, init) => HandlerSpares(h, init, m, path);
  }

  lemma {:induction false} AssignSpares(h: Host, e: Expr, m: Machine, path: Path)
    requires e.Assign? && Covered(h, e) && Clear(path, Effects(h, e))
    ensures Get(Run(h, e, m).1.state, path) == Get(m.state, path)
    decreases e, 3
  {
    hide Get, Quiet, Covered, Resolve, Store, Load;
    ClearSub(path, Effects(h, e), Effects(h, e.rhs));
    assert Covered(h, e.rhs) by {
      AssignParts(h, e);
    }
    HandlerSpares(h, e.rhs, m, path);
    var m1 := Run(h, e.rhs, m).1;
    var t := Resolve(h, e.lhs, m1);
    ResolveMatches(h, e.lhs, m1);
    var x := Run(h, e.rhs, m).0;
    var w := if t.InState? then ArgPlace(e.lhs, h.param).value.steps else [];
    assert t.InState? ==> w in Effects(h, e);
    StoreSpares(m1, t, w, if e.op.Some? then h.binary(e.op.value, Load(m1, t), x) else x, path);
  }

  lemma AssignParts(h: Host, e: Expr)
    requires e.Assign? && Covered(h, e)
    ensures Covered(h, e.rhs)
  {
  }

  lemma {:induction false} CallSpares(h: Host, e: Expr, m: Machine, path: Path)
    requires e.Call? && Covered(h, e) && Clear(path, Effects(h, e))
    ensures Get(Run(h, e, m).1.state, path) == Get(m.state, path)
    decreases e, 3
  {
    hide Clear, Get, BorrowedSteps, AllEffects, RunAll, StoreArgs, AllCovered;
    ClearSub(path, Effects(h, e), AllEffects(h, e.args));
    AllSpare(h, e.args, m, path);
    if h.callMutates(e.name) {
      ClearSub(path, Effects(h, e), BorrowedSteps(e.args, h.param));
      var (vs, m1) := RunAll(h, e.args, m);
      StoreArgsSpare(h, e.args, h.call(e.name, vs).0, m1, path);
    }
  }

  lemma {:induction false} StoreArgsSpare(h: Host, es: seq<Expr>, outs: seq<Value>, m: Machine, path: Path)
    requires Clear(path, BorrowedSteps(es, h.param))
    ensures Get(StoreArgs(h, es, outs, m).state, path) == Get(m.state, path)
    decreases es
  {
    hide Get, Resolve, Store, ArgPlace;
    if es != [] && outs != [] {
      var place := Unborrowed(es[0]);
      var t := Resolve(h, place, m);
      ResolveMatches(h, place, m);
      var w := if t.InState? then ArgPlace(place, h.param).value.steps else [];
      assert t.InState? ==> w in BorrowedSteps(es, h.param);
      StoreSpares(m, t, w, outs[0], path);
      ClearSub(path, BorrowedSteps(es, h.param), BorrowedSteps(es[1..], h.param));
      StoreArgsSpare(h, es[1..], outs[1..], Store(m, t, outs[0]), path);
    }
  }

  lemma {:induction false} MethodSpares(h: Host, e: Expr, m: Machine, path: Path)
    requires e.Method? && Covered(h, e) && Clear(path, Effects(h, e))
    ensures Get(Run(h, e, m).1.state, path) == Get(m.state, path)
    decreases e, 3
  {
    hide Clear, Get, Quiet, AllEffects, RunAll, AllCovered, Resolve, Store, Load, ArgPlace, ArgSteps;
    ClearSub(path, Effects(h, e), AllEffects(h, e.args));
    ClearSub(path, Effects(h, e), Effects(h, e.recv));
    if h.methodMutates(e.name) {
      AllSpare(h, e.args, m, path);
      HandlerSpares(h, e.recv, RunAll(h, e.args, m).1, path);
      MutatorSpares(h, e, m, path);
    } else {
      HandlerSpares(h, e.recv, m, path);
      AllSpare(h, e.args, Run(h, e.recv, m).1, path);
    }
  }

  lemma MutatorSpares(h: Host, e: Expr, m: Machine, path: Path)
    requires e.Method? && h.methodMutates(e.name) && Clear(path, Effects(h, e))
    requires Get(RunAll(h, e.args, m).1.state, path) == Get(m.state, path)
    requires var m1 := RunAll(h, e.args, m).1; Get(Run(h, e.recv, m1).1.state, path) == Get(m1.state, path)
    ensures Get(RunMutator(h, e, m).1.state, path) == Get(m.state, path)
  {
    hide Get, Resolve, Store, Load, ArgPlace, RunAll, Run;
    var (vs, m1) := RunAll(h, e.args, m);
    var t := Resolve(h, e.recv, m1);
    ResolveMatches(h, e.recv, m1);
    if !t.Nowhere? {
      var w := if t.InState? then ArgPlace(e.recv, h.param).value.steps else [];
      assert t.InState? ==> w in Effects(h, e);
      StoreSpares(m1, t, w, h.method'(e.name, Load(m1, t), vs).0, path);
    }
  }

  lemma {:induction false} IfSpares(h: Host, e: Expr, m: Machine, path: Path)
    requires e.If? && Covered(h, e) && Clear(path, Effects(h, e))
    ensures Get(Run(h, e, m).1.state, path) == Get(m.state, path)
    decreases e, 3
  {
    hide Clear, Get, RunMaybe, MaybeEffects, MaybeCovered;
    ClearSub(path, Effects(h, e), Effects(h, e.cond));
    ClearSub(path, Effects(h, e), Effects(h, e.thn));
    ClearSub(path, Effects(h, e), MaybeEffects(h, e.els));
    HandlerSpares(h, e.cond, m, path);
    HandlerSpares(h, e.thn, Run(h, e.cond, m).1, path);
    MaybeSpares(h, e.els, Run(h, e.cond, m).1, path);
  }

  lemma {:induction false} MaybeSpares(h: Host, e: Option<Expr>, m: Machine, path: Path)
    requires MaybeCovered(h, e) && Clear(path, MaybeEffects(h, e))
    ensures Get(RunMaybe(h, e, m).1.state, path) == Get(m.state, path)
    decreases e, 5
  {
    hide Clear, Get;
    if e.Some? {
      HandlerSpares(h, e.value, m, path);
    }
  }

  lemma {:induction false} AllSpare(h: Host, es: seq<Expr>, m: Machine, path: Path)
    requires AllCovered(h, es) && Clear(path, AllEffects(h, es))
    ensures Get(RunAll(h, es, m).1.state, path) == Get(m.state, path)
    decreases es, 5
  {
    hide Clear, Get, Run;
    if es != [] {
      ClearSub(path, AllEffects(h, es), Effects(h, es[0]));
      ClearSub(path, AllEffects(h, es), AllEffects(h, es[1..]));
      HandlerSpares(h, es[0], m, path);
      AllSpare(h, es[1..], Run(h, es[0], m).1, path);
    }
  }

  lemma {:induction false} ArmsSpare(h: Host, arms: seq<MatchArm>, v: Value, m: Machine, path: Path)
    requires ArmsCovered(h, arms) && Clear(path, ArmEffects(h, arms))
    ensures Get(RunArms(h, arms, v, m).1.state, path) == Get(m.state, path)
    decreases arms, 5
  {
    hide Clear, Get, Run, RunMaybe, Covered, MaybeCovered, Effects, MaybeEffects;
    if arms != [] {
      var arm, all := arms[0], ArmEffects(h, arms);
      ClearSub(path, all, MaybeEffects(h, arm.guard));
      ClearSub(path, all, Effects(h, arm.body));
      ClearSub(path, all, ArmEffects(h, arms[1..]));
      var bs := h.bind(arm.pat, v);
      if bs.None? {
        ArmsSpare(h, arms[1..], v, m, path);
      } else {
        MaybeSpares(h, arm.guard, Push(m, bs.value), path);
        var m1 := RunMaybe(h, arm.guard, Push(m, bs.value)).1;
        HandlerSpares(h, arm.body, m1, path);
        ArmsSpare(h, arms[1..], v, Leave(m1, |m.locals|), path);
      }
    }
  }

  lemma {:induction false} ItemsSpare(h: Host, e: Expr, items: seq<Value>, m: Machine, path: Path)
    requires e.For? && MaybeCovered(h, e.key) && Covered(h, e.body)
    requires Clear(path, MaybeEffects(h, e.key)) && Clear(path, Effects(h, e.body))
    ensures Get(RunItems(h, e, items, m).1.state, path) == Get(m.state, path)
    decreases e, 2, |items|
  {
    hide Clear, Get, Run, RunMaybe, Covered, MaybeCovered, Effects, MaybeEffects;
    if items != [] {
      var bs := h.bind(e.pat, items[0]);
      if bs.None? {
        ItemsSpare(h, e, items[1..], m, path);
      } else {
        MaybeSpares(h, e.key, Push(m, bs.value), path);
        var m1 := RunMaybe(h, e.key, Push(m, bs.value)).1;
        HandlerSpares(h, e.body, m1, path);
        ItemsSpare(h, e, items[1..], Leave(Run(h, e.body, m1).1, |m.locals|), path);
      }
    }
  }

  // ----- noninterference -----

  /** A slot that keeps the state shows the same in states that agree on everything it reads. */
  lemma Unmoved(h: Host, full: bool, slot: Expr, locals: Bindings, before: Value, after: Value, written: set<Steps>)
    requires Quiet(h, slot, !full)
    requires forall path :: Clear(path, written) ==> Get(after, path) == Get(before, path)
    requires forall r, w :: r in ReadSteps(slot, h.param, full) && w in written ==> !Overlap(r, w)
    ensures RunSlot(h, slot, locals, after) == RunSlot(h, slot, locals, before)
  {
    hide ReadSteps, Overlap, Get, Touches, Run, Quiet;
    forall r, path | r in ReadSteps(slot, h.param, full) && Matches(path, r)
      ensures Get(after, path) == Get(before, path)
    {
      forall w | w in written
        ensures !Touches(path, w)
      {
        if Touches(path, w) {
          TouchingOverlaps(path, r, w);
        }
      }
    }
    SlotStable(h, full, slot, Machine(after, locals), Machine(before, locals));
  }

  /**
  With the sets as they should be, noninterference holds for every slot that keeps the state and every
  handler: no method and no receiver, base or argument is left out.
  */
  lemma FullNoninterference(h: Host, slot: Expr, handler: Expr, locals: Bindings, events: Bindings, state: Value)
    requires Quiet(h, slot, false) && Covered(h, handler) && !FullInterference(h, slot, handler)
    ensures RunSlot(h, slot, locals, RunHandler(h, handler, events, state)) == RunSlot(h, slot, locals, state)
  {
    hide ReadSteps, Effects, Overlap, Get, Clear, Run, Quiet, Covered, RunSlot;
    forall path | Clear(path, Effects(h, handler))
      ensures Get(RunHandler(h, handler, events, state), path) == Get(state, path)
    {
      HandlerSpares(h, handler, Machine(state, events), path);
    }
    Unmoved(h, true, slot, locals, state, RunHandler(h, handler, events, state), Effects(h, handler));
  }

  /** What the slot reads and the handler writes in full overlap. */
  ghost predicate FullInterference(h: Host, slot: Expr, handler: Expr) {
    exists r, w :: r in ReadSteps(slot, h.param, true) && w in Effects(h, handler) && Overlap(r, w)
  }

  /**
  If the analysis finds no interference, running the handler leaves what the slot shows unchanged,
  whatever the state, the event's values and the slot's local variables.
  */
  lemma Noninterference(h: Host, slot: Expr, handler: Expr, locals: Bindings, events: Bindings, state: Value)
    requires SlotExpr(h, slot) && HandlerExpr(h, handler)
    requires !AnyInterference(ReadSet(slot, h.param), WriteSet(handler, h.param))
    ensures RunSlot(h, slot, locals, RunHandler(h, handler, events, state)) == RunSlot(h, slot, locals, state)
  {
    hide ReadSteps, WriteSteps, Effects, Overlap, Get, Clear, Run, HandlerExpr, Covered, ReadSet, WriteSet, RunSlot,
         Quiet;
    InterferenceIs(slot, handler, h.param);
    HandlerWithin(h, handler);
    var written := WriteSteps(handler, h.param);
    forall path | Clear(path, written)
      ensures Get(RunHandler(h, handler, events, state), path) == Get(state, path)
    {
      ClearSub(path, written, Effects(h, handler));
      HandlerSpares(h, handler, Machine(state, events), path);
    }
    Unmoved(h, false, slot, locals, state, RunHandler(h, handler, events, state), written);
  }

  /**
  For programs whose methods and functions are the operations on lists and cells as they are defined:
  a handler may use any of them on any place, and the slot is unchanged if no interference is found.
  */
  lemma OwningNoninterference(base: Host, left: Value -> Value, slot: Expr, handler: Expr, locals: Bindings,
                              events: Bindings, state: Value)
    requires SlotExpr(Owning(base, left), slot) && HandlerExpr(Owning(base, left), handler)
    requires !AnyInterference(ReadSet(slot, base.param), WriteSet(handler, base.param))
    ensures var h := Owning(base, left);
            RunSlot(h, slot, locals, RunHandler(h, handler, events, state)) == RunSlot(h, slot, locals, state)
  {
    hide ReadSet, WriteSet, RunSlot, RunHandler, SlotExpr, HandlerExpr;
    Noninterference(Owning(base, left), slot, handler, locals, events, state);
  }

  /** There, names put no limit on the methods of a handler. */
  lemma AnyMethodGoes(base: Host, left: Value -> Value, recv: Expr, name: string, args: seq<Expr>)
    requires Quiet(Owning(base, left), recv, false) && AllHandler(Owning(base, left), args)
    ensures HandlerExpr(Owning(base, left), Method(recv, name, args))
  {
    hide Quiet, InPlace;
  }

  // ----- the fragments have no effects but those the analysis collects -----

  lemma {:induction false} QuietNoEffects(h: Host, e: Expr, strict: bool)
    requires Quiet(h, e, strict)
    ensures Covered(h, e) && Effects(h, e) == {} && Quiet(h, e, false)
    decreases e, 0
  {
    hide AllQuiet, MaybeQuiet, ArmsQuiet, AllCovered, MaybeCovered, ArmsCovered, AllEffects, MaybeEffects, ArmEffects;
    hide ArgPlace, Asks;
    match e
    case Var(_) =>
    case Lit(_) =>
    case Field(b, _) => QuietNoEffects(h, b, strict);
    case Index(b, i) =>
      QuietNoEffects(h, b, strict);
      QuietNoEffects(h, i, strict);
    case Call(_, args) => AllQuietNoEffects(h, args, strict);
    case Method(recv, _, args) =>
      QuietNoEffects(h, recv, strict);
      AllQuietNoEffects(h, args, strict);
    case Unary(_, inner) => QuietNoEffects(h, inner, strict);
    case Binary(_, l, r) =>
      QuietNoEffects(h, l, strict);
      QuietNoEffects(h, r, strict);
    case If(cond, thn, els) =>
      QuietNoEffects(h, cond, strict);
      QuietNoEffects(h, thn, strict);
      MaybeQuietNoEffects(h, els, strict);
    case Match(scrutinee, arms) =>
      QuietNoEffects(h, scrutinee, strict);
      ArmsQuietNoEffects(h, arms, strict);
    case For(_, iter, key, body) =>
      QuietNoEffects(h, iter, strict);
      MaybeQuietNoEffects(h, key, strict);
      QuietNoEffects(h, body, strict);
    case Block(stmts, tail) =>
      AllQuietNoEffects(h, stmts, strict);
      MaybeQuietNoEffects(h, tail, strict);
    case Let(_, init) => QuietNoEffects(h, init, strict);
  }

  lemma {:induction false} MaybeQuietNoEffects(h: Host, e: Option<Expr>, strict: bool)
    requires MaybeQuiet(h, e, strict)
    ensures MaybeCovered(h, e) && MaybeEffects(h, e) == {} && MaybeQuiet(h, e, false)
    decreases e, 1
  {
    if e.Some? {
      QuietNoEffects(h, e.value, strict);
    }
  }

  lemma {:induction false} AllQuietNoEffects(h: Host, es: seq<Expr>, strict: bool)
    requires AllQuiet(h, es, strict)
    ensures AllCovered(h, es) && AllEffects(h, es) == {} && AllQuiet(h, es, false)
    decreases es, 1
  {
    if es != [] {
      QuietNoEffects(h, es[0], strict);
      AllQuietNoEffects(h, es[1..], strict);
    }
  }

  lemma {:induction false} ArmsQuietNoEffects(h: Host, arms: seq<MatchArm>, strict: bool)
    requires ArmsQuiet(h, arms, strict)
    ensures ArmsCovered(h, arms) && ArmEffects(h, arms) == {} && ArmsQuiet(h, arms, false)
    decreases arms, 1
  {
    if arms != [] {
      MaybeQuietNoEffects(h, arms[0].guard, strict);
      QuietNoEffects(h, arms[0].body, strict);
      ArmsQuietNoEffects(h, arms[1..], strict);
    }
  }

  /** The analysis' handlers are covered, and its write set has all they write. */
  lemma {:induction false} HandlerWithin(h: Host, e: Expr)
    requires HandlerExpr(h, e)
    ensures Covered(h, e) && Effects(h, e) <= WriteSteps(e, h.param)
    decreases e, 0
  {
    hide AllHandler, MaybeHandler, ArmsHandler, AllCovered, MaybeCovered, ArmsCovered, AllEffects, MaybeEffects,
         ArmEffects;
    hide AllWrites, MaybeWrites, ArmWrites, Quiet, ArgSteps, ArgPlace, MutatingCall, MutatingMethod, InPlace,
         InPlaceOnLists, BorrowedSteps;
    match e
    case Var(_) =>
    case Lit(_) =>
    case Field(b, _) => QuietNoEffects(h, b, false);
    case Index(b, i) =>
      QuietNoEffects(h, b, false);
      QuietNoEffects(h, i, false);
    case Call(name, args) =>
      ListedNames(name);
      AllWithin(h, args);
      if h.callMutates(name) {
        ArgumentsWithin(h, args);
      }
    case Method(recv, name, args) =>
      ListedNames(name);
      QuietNoEffects(h, recv, false);
      AllWithin(h, args);
    case Unary(_, inner) => HandlerWithin(h, inner);
    case Binary(_, l, r) =>
      HandlerWithin(h, l);
      HandlerWithin(h, r);
    case Assign(lhs, _, rhs) =>
      HandlerWithin(h, rhs);
      TargetWithin(lhs, h.param);
    case If(cond, thn, els) =>
      HandlerWithin(h, cond);
      HandlerWithin(h, thn);
      MaybeWithin(h, els);
    case Match(scrutinee, arms) =>
      HandlerWithin(h, scrutinee);
      ArmsWithin(h, arms);
    case For(_, iter, key, body) =>
      HandlerWithin(h, iter);
      MaybeWithin(h, key);
      HandlerWithin(h, body);
    case Block(stmts, tail) =>
      AllWithin(h, stmts);
      MaybeWithin(h, tail);
    case Let(_, init) => HandlerWithin(h, init);
  }

  lemma TargetWithin(lhs: Expr, param: string)
    ensures ArgPlace(lhs, param).None? ==> ArgSteps(lhs, param) == {}
  {
  }

  /** Without `&mut` the arguments of a mutating call are just the places among them. */
  lemma {:induction false} ArgumentsWithin(h: Host, es: seq<Expr>)
    requires NoneBorrowed(es) && AllHandler(h, es)
    ensures PlacesQuiet(h, es) && BorrowedSteps(es, h.param) == AllArgSteps(es, h.param)
    decreases es
  {
    hide ArgSteps;
    if es != [] {
      ArgumentsWithin(h, es[1..]);
    }
  }

  lemma {:induction false} MaybeWithin(h: Host, e: Option<Expr>)
    requires MaybeHandler(h, e)
    ensures MaybeCovered(h, e) && MaybeEffects(h, e) <= MaybeWrites(e, h.param)
    decreases e, 1
  {
    if e.Some? {
      HandlerWithin(h, e.value);
    }
  }

  lemma {:induction false} AllWithin(h: Host, es: seq<Expr>)
    requires AllHandler(h, es)
    ensures AllCovered(h, es) && AllEffects(h, es) <= AllWrites(es, h.param)
    decreases es, 1
  {
    if es != [] {
      HandlerWithin(h, es[0]);
      AllWithin(h, es[1..]);
    }
  }

  lemma {:induction false} ArmsWithin(h: Host, arms: seq<MatchArm>)
    requires ArmsHandler(h, arms)
    ensures ArmsCovered(h, arms) && ArmEffects(h, arms) <= ArmWrites(arms, h.param)
    decreases arms, 1
  {
    if arms != [] {
      MaybeWithin(h, arms[0].guard);
      HandlerWithin(h, arms[0].body);
      ArmsWithin(h, arms[1..]);
    }
  }

  // ----- outside the fragments the verdict can be wrong -----

  /** Lists with push, pop and len, clear as a call, and every other method returning its receiver. */
  function ListMethod(name: string, v: Value, args: seq<Value>): (Value, Value) {
    if !v.List? then (v, v)
    else if name == "push" then (List(v.items + args), Absent)
    else if name == "pop" && v.items != [] then (List(v.items[..|v.items| - 1]), v.items[|v.items| - 1])
    else if name == "len" then (v, Atom(IntLit(|v.items|)))
    else (v, v)
  }

  function ListHost(): Host {
    Host("s", (_, v) => v, (_, v, _) => v, _ => true, _ => 0, _ => [], (_, _) => None,
         (_, vs: seq<Value>) => (seq(|vs|, _ => List([])), Absent), ListMethod,
         name => name == "clear", name => name == "push" || name == "pop")
  }

  function Items(): Expr {
    Field(Var("s"), "items")
  }

  function ItemsState(items: seq<Value>): Value {
    Record(map["items" := List(items)])
  }

  /** s.items before a handler runs and after. */
  lemma ItemsRun(items: seq<Value>)
    ensures var m := Machine(ItemsState(items), []);
            Resolve(ListHost(), Items(), m) == InState([Member("items")])
              && Run(ListHost(), Items(), m) == (List(items), m)
    ensures Get(ItemsState(items), [Member("items")]) == List(items)
    ensures forall v :: Set(ItemsState(items), [Member("items")], v) == Record(map["items" := v])
  {
    var path := [Member("items")];
    assert path[1..] == [] && [] + [Member("items")] == path;
    assert Lookup([], "s") == None;
    assert GetStep(ItemsState(items), Member("items")) == List(items);
    forall v
      ensures Set(ItemsState(items), path, v) == Record(map["items" := v])
    {
      assert Set(List(items), [], v) == v;
    }
  }

  function Length(): Expr {
    Method(Items(), "len", [])
  }

  function PushZero(): Expr {
    Method(Items(), "push", [Lit(IntLit(0))])
  }

  lemma LengthSets()
    ensures ReadSet(Length(), "s") == {}
    ensures HandlerExpr(ListHost(), PushZero()) && Quiet(ListHost(), Length(), false)
  {
    assert Length().args == [] && PushZero().args[1..] == [];
    assert CollectAllReads([], "s", {}) == {};
    assert PlaceOf(Items(), "s", {}).1 == {};
  }

  lemma LengthRun(items: seq<Value>)
    ensures RunSlot(ListHost(), Length(), [], ItemsState(items)) == Atom(IntLit(|items|))
  {
    ItemsRun(items);
  }

  lemma PushRun()
    ensures RunHandler(ListHost(), PushZero(), [], ItemsState([])) == ItemsState([Atom(IntLit(0))])
  {
    hide Resolve;
    var h, zero := ListHost(), Atom(IntLit(0));
    ItemsRun([]);
    var m := Machine(ItemsState([]), []);
    assert PushZero().args[1..] == [];
    assert RunAll(h, PushZero().args, m) == ([zero], m) by {
      assert RunAll(h, [], m) == ([], m) && [zero] + [] == [zero];
    }
    assert [] + [zero] == [zero];
  }

  /** `s.items.len()` against `s.items.push(0)`: the slot's read set is empty, and it goes from 0 to 1. */
  lemma LengthMissed()
    ensures var h, slot, handler := ListHost(), Length(), PushZero();
            && HandlerExpr(h, handler) && Quiet(h, slot, false)
            && ReadSet(slot, h.param) == {} && !AnyInterference(ReadSet(slot, h.param), WriteSet(handler, h.param))
            && RunSlot(h, slot, [], ItemsState([])) == Atom(IntLit(0))
            && RunSlot(h, slot, [], RunHandler(h, handler, [], ItemsState([]))) == Atom(IntLit(1))
  {
    hide RunSlot, RunHandler, Quiet, HandlerExpr, ReadSet, WriteSet, Length, PushZero, ItemsState;
    LengthSets();
    LengthRun([]);
    LengthRun([Atom(IntLit(0))]);
    PushRun();
  }

  function PopUnwrap(): Expr {
    Method(Method(Items(), "pop", []), "unwrap", [])
  }

  lemma PopRun()
    ensures RunHandler(ListHost(), PopUnwrap(), [], ItemsState([Absent])) == ItemsState([])
  {
    hide Resolve;
    var h, pop := ListHost(), Method(Items(), "pop", []);
    ItemsRun([Absent]);
    var m := Machine(ItemsState([Absent]), []);
    assert RunAll(h, [], m) == ([], m);
    assert [Absent][..0] == [];
    assert RunMutator(h, pop, m).1.state == ItemsState([]);
    assert Run(h, pop, m).1.state == ItemsState([]);
  }

  /** `s.items.pop().unwrap()` has an empty write set: receivers are not searched for writes. */
  lemma ReceiverWriteMissed()
    ensures var h, slot, handler := ListHost(), Items(), PopUnwrap();
            && SlotExpr(h, slot) && WriteSet(handler, h.param) == {}
            && !AnyInterference(ReadSet(slot, h.param), WriteSet(handler, h.param))
            && RunSlot(h, slot, [], ItemsState([Absent])) == List([Absent])
            && RunSlot(h, slot, [], RunHandler(h, handler, [], ItemsState([Absent]))) == List([])
  {
    hide RunHandler, Run;
    PopRun();
    ItemsRun([Absent]);
    ItemsRun([]);
  }

  function ClearBorrowed(): Expr {
    Call("clear", [Unary(RefMut, Items())])
  }

  lemma ClearRun()
    ensures RunHandler(ListHost(), ClearBorrowed(), [], ItemsState([Absent])) == ItemsState([])
  {
    hide Resolve;
    var h, arg := ListHost(), Unary(RefMut, Items());
    ItemsRun([Absent]);
    var m := Machine(ItemsState([Absent]), []);
    assert [arg][1..] == [];
    assert RunAll(h, [arg], m) == ([List([Absent])], m) by {
      assert RunAll(h, [], m) == ([], m) && [List([Absent])] + [] == [List([Absent])];
    }
    var outs := h.call("clear", [List([Absent])]).0;
    assert outs == [List([])] && outs[1..] == [];
    assert StoreArgs(h, [arg], outs, m).state == ItemsState([]);
  }

  lemma ClearSets()
    ensures SlotExpr(ListHost(), Items()) && WriteSet(ClearBorrowed(), "s") == {}
  {
    assert ClearBorrowed().args[1..] == [];
    assert ArgPlaces([], "s") == {} && ArgPlaces(ClearBorrowed().args, "s") == {};
  }

  /** `clear(&mut s.items)` too: behind `&mut` an argument is no longer taken for a place. */
  lemma BorrowedArgumentMissed()
    ensures var h, slot, handler := ListHost(), Items(), ClearBorrowed();
            && SlotExpr(h, slot) && WriteSet(handler, h.param) == {}
            && !AnyInterference(ReadSet(slot, h.param), WriteSet(handler, h.param))
            && RunSlot(h, slot, [], ItemsState([Absent])) == List([Absent])
            && RunSlot(h, slot, [], RunHandler(h, handler, [], ItemsState([Absent]))) == List([])
  {
    hide RunHandler, Run, Quiet, CollectWrites, ClearBorrowed;
    ClearSets();
    ClearRun();
    ItemsRun([Absent]);
    ItemsRun([]);
  }

  /** The sets as they should be find all three. */
  lemma FullFindsThem()
    ensures FullInterference(ListHost(), Length(), PushZero())
    ensures FullInterference(ListHost(), Items(), PopUnwrap())
    ensures FullInterference(ListHost(), Items(), ClearBorrowed())
  {
    var h, items := ListHost(), [FieldStep("items")];
    assert [] + items == items && Overlap(items, items);
    assert ArgSteps(Items(), "s") == {items};
    assert items in ReadSteps(Items(), "s", true) && items in ReadSteps(Length(), "s", true);
    assert items in Effects(h, PushZero()) && items in Effects(h, Method(Items(), "pop", []));
    assert items in Effects(h, PopUnwrap());
    assert items in BorrowedSteps(ClearBorrowed().args, "s") && items in Effects(h, ClearBorrowed());
  }
}
