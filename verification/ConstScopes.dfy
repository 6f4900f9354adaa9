/**
The scope stack of the constant evaluator: what every evaluation, successful or not, leaves of it
(crates/glyim-const-eval/src/eval.rs).
*/
module ConstScopes {
  import opened ConstEval
  import opened ConstValue
  import opened Wrappers

  // ----- scopes -----

  /**
  What an evaluation leaves of the scopes it started with: all of them, with their names, the innermost
  perhaps with more; and no others when it succeeded.
  */
  predicate Leaves(before: Env, ok: bool, after: Env) {
    && |before| <= |after| && (ok ==> |before| == |after|)
    && (forall k :: 0 <= k < |before| - 1 ==> before[k].Keys == after[k].Keys)
    && (before != [] ==> before[|before| - 1].Keys <= after[|before| - 1].Keys)
  }

  predicate Kept(before: Env, after: Env) {
    Leaves(before, true, after)
  }

  /** The scopes it started with, with exactly their names. */
  predicate Untouched(before: Env, ok: bool, after: Env) {
    && |before| <= |after| && (ok ==> |before| == |after|)
    && forall k :: 0 <= k < |before| ==> before[k].Keys == after[k].Keys
  }

  lemma KeptThen(a: Env, b: Env, ok: bool, c: Env)
    requires Kept(a, b) && Leaves(b, ok, c)
    ensures Leaves(a, ok, c)
  {
  }

  /** Pushing a scope, working inside it and popping it touches no scope below. */
  lemma ScopePopped(before: Env, ok: bool, inside: Env)
    requires Leaves(before + [map[]], ok, inside)
    ensures inside != [] && Untouched(before, ok, inside[..|inside| - 1])
  {
    forall k | 0 <= k < |before|
      ensures before[k].Keys == inside[..|inside| - 1][k].Keys
    {
      assert (before + [map[]])[k] == before[k];
    }
  }

  /** A scope that is not popped. */
  lemma ScopeLeft(before: Env, inside: Env)
    requires Leaves(before + [map[]], false, inside)
    ensures Untouched(before, false, inside) && |inside| > |before|
  {
    forall k | 0 <= k < |before|
      ensures before[k].Keys == inside[k].Keys
    {
      assert (before + [map[]])[k] == before[k];
    }
  }

  lemma UntouchedLeaves(before: Env, ok: bool, after: Env)
    requires Untouched(before, ok, after)
    ensures Leaves(before, ok, after)
  {
  }

  lemma BindKeeps(env: Env, name: Name, v: Value)
    ensures Kept(env, Bind(env, name, v))
  {
  }

  lemma {:induction false} ScopeHasName(env: Env, name: Name)
    ensures var k := ScopeOf(env, name); k.Some? ==> k.value < |env| && name in env[k.value]
  {
    if env != [] {
      ScopeHasName(env[..|env| - 1], name);
    }
  }

  lemma AssignKeeps(env: Env, name: Name, v: Value)
    ensures Kept(env, AssignName(env, name, v))
    ensures ScopeOf(env, name).Some? ==> Untouched(env, true, AssignName(env, name, v))
  {
    ScopeHasName(env, name);
    var k := ScopeOf(env, name);
    if k.Some? {
      assert Put(env[k.value], name, v).Keys == env[k.value].Keys;
    }
  }

  lemma {:induction false} MatchKeeps(pat: Pat, v: Value, env: Env)
    ensures Kept(env, Matches(pat, v, env).env)
    decreases pat, 0
  {
    hide Leaves, Bind;
    KeptSelf(env);
    match pat
    case PWild =>
    case PLiteral(_) =>
    case POr(alts) => MatchAnyKeeps(alts, v, env);
    case PTuple(parts) => if v.TupleV? && |parts| == |v.elems| { MatchAllKeeps(parts, v.elems, env); }
    case PBinding(name) => BindKeeps(env, name, v);
    case PStruct(fields) => if v.StructV? && |fields| == |v.fields| { MatchFieldsKeep(fields, v.fields, env); }
    case PPath(_) =>
    case PSlice(parts) => if v.ArrayV? && |parts| == |v.elems| { MatchAllKeeps(parts, v.elems, env); }
    case PRange(_, _, _) =>
    case PErr =>
  }

  lemma KeptSelf(env: Env)
    ensures Kept(env, env)
  {
  }

  lemma {:induction false} MatchAnyKeeps(alts: seq<Pat>, v: Value, env: Env)
    ensures Kept(env, MatchesAny(alts, v, env).env)
    decreases alts, 1
  {
    hide Leaves, Matches;
    KeptSelf(env);
    if alts != [] {
      var first := Matches(alts[0], v, env).env;
      MatchKeeps(alts[0], v, env);
      MatchAnyKeeps(alts[1..], v, first);
      KeptThen(env, first, true, MatchesAny(alts[1..], v, first).env);
    }
  }

  lemma {:induction false} MatchAllKeeps(parts: seq<Pat>, vs: seq<Value>, env: Env)
    ensures Kept(env, MatchesAll(parts, vs, env).env)
    decreases parts, 1
  {
    hide Leaves, Matches;
    KeptSelf(env);
    if parts != [] && vs != [] {
      var first := Matches(parts[0], vs[0], env).env;
      MatchKeeps(parts[0], vs[0], env);
      MatchAllKeeps(parts[1..], vs[1..], first);
      KeptThen(env, first, true, MatchesAll(parts[1..], vs[1..], first).env);
    }
  }

  lemma {:induction false} MatchFieldsKeep(fields: seq<FieldPat>, vs: seq<FieldValue>, env: Env)
    ensures Kept(env, MatchesFields(fields, vs, env).env)
    decreases fields, 1
  {
    hide Leaves, Matches, FindField;
    KeptSelf(env);
    if fields != [] {
      var f, v := fields[0], FindField(vs, fields[0].name);
      if v.Some? {
        assert f.pat < f;
        var first := Matches(f.pat, v.value, env).env;
        MatchKeeps(f.pat, v.value, env);
        MatchFieldsKeep(fields[1..], vs, first);
        KeptThen(env, first, true, MatchesFields(fields[1..], vs, first).env);
      }
    }
  }

  lemma {:induction false} BindParamsKeep(params: seq<Pat>, vs: seq<Value>, env: Env)
    ensures Kept(env, BindParams(params, vs, env).env)
  {
    hide Leaves, Matches;
    KeptSelf(env);
    if params != [] && vs != [] {
      var first := Matches(params[0], vs[0], env).env;
      MatchKeeps(params[0], vs[0], env);
      BindParamsKeep(params[1..], vs[1..], first);
      KeptThen(env, first, true, BindParams(params[1..], vs[1..], first).env);
    }
  }

  // ----- every evaluation, whatever its outcome -----

  lemma Weaken(from: Env, env: Env)
    requires Kept(from, env)
    ensures Leaves(from, false, env)
  {
  }

  lemma {:induction false} IdLeaves(from: Env, p: Program, id: Id, left: nat, st: State)
    requires Kept(from, st.env)
    ensures var o := EvalId(p, id, left, st); Leaves(from, o.0.Ok?, o.1.env)
    decreases left, 1, 0
  {
    hide Leaves, EvalExpr;
    ExprLeaves(from, p, At(p, id), left, st);
  }

  lemma {:induction false} ExprLeaves(from: Env, p: Program, e: Expr, left: nat, st: State)
    requires Kept(from, st.env)
    ensures var o := EvalExpr(p, e, left, st); Leaves(from, o.0.Ok?, o.1.env)
    decreases left, 0, 0
  {
    hide Leaves, EvalOperation, EvalControl;
    if left == 0 {
      Weaken(from, st.env);
    } else if IsControl(e) {
      ControlLeaves(from, p, e, left - 1, st);
    } else {
      OperationLeaves(from, p, e, left - 1, st);
    }
  }

  /** A value that is looked at after its evaluation may turn out not to do. */
  lemma {:induction false} OneLeaves(from: Env, p: Program, id: Id, left: nat, st: State)
    requires Kept(from, st.env)
    ensures var o := EvalId(p, id, left, st);
            Leaves(from, o.0.Ok?, o.1.env) && Leaves(from, false, o.1.env)
    decreases left, 2, 0
  {
    hide Leaves, EvalId;
    var o := EvalId(p, id, left, st);
    IdLeaves(from, p, id, left, st);
    if o.0.Ok? {
      Weaken(from, o.1.env);
    }
  }

  lemma {:induction false} TwoLeave(from: Env, p: Program, a: Id, b: Id, left: nat, st: State)
    requires Kept(from, st.env)
    ensures var o := EvalId(p, a, left, st);
            && Leaves(from, false, o.1.env)
            && (o.0.Ok? ==>
                  var o' := EvalId(p, b, left, o.1);
                  Leaves(from, o'.0.Ok?, o'.1.env) && Leaves(from, false, o'.1.env))
    decreases left, 3, 0
  {
    hide Leaves, EvalId;
    var o := EvalId(p, a, left, st);
    OneLeaves(from, p, a, left, st);
    if o.0.Ok? {
      OneLeaves(from, p, b, left, o.1);
    }
  }

  lemma {:induction false} OperationLeaves(from: Env, p: Program, e: Expr, left: nat, st: State)
    requires !IsControl(e) && Kept(from, st.env)
    ensures var o := EvalOperation(p, e, left, st); Leaves(from, o.0.Ok?, o.1.env)
    decreases left, 6, 0
  {
    hide Leaves, EvalId, EvalAll, EvalBound, EvalPath, ApplyBinOp, ApplyUnOp, FieldOf, ElementAt, CastTo;
    Weaken(from, st.env);
    if e.Binary? {
      TwoLeave(from, p, e.lhs, e.rhs, left, st);
    } else if e.Index? {
      TwoLeave(from, p, e.base, e.index, left, st);
    } else if e.Unary? || e.Cast? || e.Ref? {
      OneLeaves(from, p, e.operand, left, st);
    } else if e.Field? {
      OneLeaves(from, p, e.recv, left, st);
    } else if e.Tuple? || e.Array? {
      AllLeave(from, p, e.elems, left, st);
    } else if e.Struct? {
      AllLeave(from, p, InitIds(e.inits), left, st);
    } else if e.Range? {
      var (a, s1) := EvalBound(p, e.start, left, st);
      BoundLeaves(from, p, e.start, left, st);
      if a.Ok? {
        BoundLeaves(from, p, e.end, left, s1);
      }
    }
  }

  lemma {:induction false} BoundLeaves(from: Env, p: Program, id: Option<Id>, left: nat, st: State)
    requires Kept(from, st.env)
    ensures var o := EvalBound(p, id, left, st); Leaves(from, o.0.Ok?, o.1.env)
    decreases left, 2, 0
  {
    hide Leaves, EvalId;
    if id.Some? {
      IdLeaves(from, p, id.value, left, st);
    }
  }

  lemma {:induction false} MaybeLeaves(from: Env, p: Program, id: Option<Id>, left: nat, st: State)
    requires Kept(from, st.env)
    ensures var o := EvalMaybe(p, id, left, st); Leaves(from, o.0.Ok?, o.1.env)
    decreases left, 2, 0
  {
    hide Leaves, EvalId;
    if id.Some? {
      IdLeaves(from, p, id.value, left, st);
    }
  }

  lemma {:induction false} AllLeave(from: Env, p: Program, ids: seq<Id>, left: nat, st: State)
    requires Kept(from, st.env)
    ensures var o := EvalAll(p, ids, left, st); Leaves(from, o.0.Ok?, o.1.env)
    decreases left, 3, |ids|
  {
    hide Leaves, EvalId;
    if ids != [] {
      var (v, s1) := EvalId(p, ids[0], left, st);
      IdLeaves(from, p, ids[0], left, st);
      if v.Ok? {
        AllLeave(from, p, ids[1..], left, s1);
      }
    }
  }

  lemma {:induction false} ArmsLeave(from: Env, p: Program, arms: seq<Arm>, v: Value, left: nat, st: State)
    requires Kept(from, st.env)
    ensures var o := EvalArms(p, arms, v, left, st); Leaves(from, o.0.Ok?, o.1.env)
    decreases left, 3, |arms|
  {
    hide Leaves, EvalId, Matches;
    Weaken(from, st.env);
    if arms != [] {
      var m := Matches(arms[0].pat, v, st.env);
      var s1 := st.(env := m.env);
      MatchKeeps(arms[0].pat, v, st.env);
      KeptThen(from, st.env, true, s1.env);
      Weaken(from, s1.env);
      if m.result.Ok? && m.result.value {
        IdLeaves(from, p, arms[0].body, left, s1);
      } else if m.result.Ok? {
        ArmsLeave(from, p, arms[1..], v, left, s1);
      }
    }
  }

  /** A block leaves every scope around it with the names it had; if it fails there may be more scopes. */
  lemma {:induction false} BlockKeepsNames(p: Program, stmts: seq<Id>, tail: Option<Id>, left: nat, st: State)
    ensures var o := EvalBlock(p, stmts, tail, left, st); Untouched(st.env, o.0.Ok?, o.1.env)
    decreases left, 4, 0
  {
    hide Leaves, EvalAll, EvalMaybe;
    var s0 := PushScope(st);
    var (vs, s1) := EvalAll(p, stmts, left, s0);
    KeptSelf(s0.env);
    AllLeave(s0.env, p, stmts, left, s0);
    if vs.Err? {
      ScopeLeft(st.env, s1.env);
    } else {
      var (r, s2) := EvalMaybe(p, tail, left, s1);
      MaybeLeaves(s0.env, p, tail, left, s1);
      ScopePopped(st.env, r.Ok?, s2.env);
    }
  }

  /** So does the invocation of a closure or constant function, its arguments once evaluated. */
  lemma {:induction false} InvocationKeepsNames(p: Program, params: seq<Pat>, body: Id, vs: seq<Value>, left: nat,
                                                st: State)
    ensures var o := BindAndEval(p, params, body, vs, left, st); Untouched(st.env, o.0.Ok?, o.1.env)
    decreases left, 4, 0
  {
    hide Leaves, EvalId, BindParams;
    var s0 := PushScope(st);
    var bound := BindParams(params, vs, s0.env);
    var s1 := st.(env := bound.env);
    BindParamsKeep(params, vs, s0.env);
    if bound.result.Err? {
      Weaken(s0.env, s1.env);
      ScopeLeft(st.env, s1.env);
    } else {
      var (r, s2) := EvalId(p, body, left, s1);
      IdLeaves(s0.env, p, body, left, s1);
      ScopePopped(st.env, r.Ok?, s2.env);
    }
  }

  lemma {:induction false} InvocationLeaves(from: Env, p: Program, params: seq<Pat>, body: Id, vs: seq<Value>,
                                            left: nat, st: State)
    requires Kept(from, st.env)
    ensures var o := BindAndEval(p, params, body, vs, left, st); Leaves(from, o.0.Ok?, o.1.env)
    decreases left, 4, 1
  {
    hide Leaves, Untouched, BindAndEval;
    var o := BindAndEval(p, params, body, vs, left, st);
    InvocationKeepsNames(p, params, body, vs, left, st);
    UntouchedLeaves(st.env, o.0.Ok?, o.1.env);
    KeptThen(from, st.env, o.0.Ok?, o.1.env);
  }

  lemma {:induction false} CallLeaves(from: Env, p: Program, callee: Expr, args: seq<Id>, left: nat, st: State)
    requires Kept(from, st.env)
    ensures var o := EvalCall(p, callee, args, left, st); Leaves(from, o.0.Ok?, o.1.env)
    decreases left, 5, 0
  {
    hide Leaves, EvalAll, BindAndEval;
    var (vs, s1) := EvalAll(p, args, left, st);
    Weaken(from, st.env);
    AllLeave(from, p, args, left, st);
    if vs.Ok? {
      Weaken(from, s1.env);
      if callee.Closure? {
        InvocationLeaves(from, p, callee.params, callee.body, vs.value, left, s1);
      } else if callee.Path? && |callee.segments| == 1 && callee.segments[0] in p.constFns {
        var f := p.constFns[callee.segments[0]];
        InvocationLeaves(from, p, f.params, f.body, vs.value, left, s1);
      }
    }
  }

  lemma {:induction false} WhileLeaves(from: Env, p: Program, cond: Id, body: Id, iters: nat, left: nat, st: State)
    requires Kept(from, st.env)
    ensures var o := EvalWhile(p, cond, body, iters, left, st); Leaves(from, o.0.Ok?, o.1.env)
    decreases left, 4, iters
  {
    hide Leaves, EvalId;
    Weaken(from, st.env);
    if iters > 0 {
      var (c, s1) := EvalId(p, cond, left, st);
      OneLeaves(from, p, cond, left, st);
      if c.Ok? && c.value.BoolV? && c.value.b {
        var (r, s2) := EvalId(p, body, left, s1);
        IdLeaves(from, p, body, left, s1);
        if r.Ok? && !Stops(s2.control) {
          WhileLeaves(from, p, cond, body, iters - 1, left, s2.(control := None));
        }
      }
    }
  }

  lemma {:induction false} LoopLeaves(from: Env, p: Program, body: Id, iters: nat, left: nat, st: State)
    requires Kept(from, st.env)
    ensures var o := EvalLoop(p, body, iters, left, st); Leaves(from, o.0.Ok?, o.1.env)
    decreases left, 2, iters
  {
    hide Leaves, EvalId;
    Weaken(from, st.env);
    if iters > 0 {
      var (r, s1) := EvalId(p, body, left, st);
      IdLeaves(from, p, body, left, st);
      if r.Ok? && !Stops(s1.control) {
        LoopLeaves(from, p, body, iters - 1, left, s1.(control := None));
      }
    }
  }

  lemma {:induction false} ForLeaves(from: Env, p: Program, pat: Pat, elems: seq<Value>, body: Id, left: nat, st: State)
    requires Kept(from, st.env)
    ensures var o := EvalFor(p, pat, elems, body, left, st); Leaves(from, o.0.Ok?, o.1.env)
    decreases left, 2, |elems|
  {
    hide Leaves, EvalId, Matches;
    if elems != [] {
      var m := Matches(pat, elems[0], st.env);
      var s0 := st.(env := m.env);
      MatchKeeps(pat, elems[0], st.env);
      KeptThen(from, st.env, true, s0.env);
      Weaken(from, s0.env);
      if m.result.Ok? {
        var (r, s1) := EvalId(p, body, left, s0);
        IdLeaves(from, p, body, left, s0);
        if r.Ok? && !Stops(s1.control) {
          ForLeaves(from, p, pat, elems[1..], body, left, s1.(control := None));
        }
      }
    }
  }

  lemma {:induction false} ControlLeaves(from: Env, p: Program, e: Expr, left: nat, st: State)
    requires IsControl(e) && Kept(from, st.env)
    ensures var o := EvalControl(p, e, left, st); Leaves(from, o.0.Ok?, o.1.env)
    decreases left, 6, 0
  {
    hide Leaves, Untouched, EvalId, EvalAll, EvalMaybe, EvalArms, EvalBlock, EvalCall, EvalWhile, EvalLoop, EvalFor;
    hide AssignName, Elements;
    if e.If? {
      IfLeaves(from, p, e, left, st);
    } else if e.Match? {
      var (v, s1) := EvalId(p, e.scrutinee, left, st);
      IdLeaves(from, p, e.scrutinee, left, st);
      if v.Ok? {
        ArmsLeave(from, p, e.arms, v.value, left, s1);
      }
    } else if e.Block? {
      var o := EvalBlock(p, e.stmts, e.tail, left, st);
      BlockKeepsNames(p, e.stmts, e.tail, left, st);
      UntouchedLeaves(st.env, o.0.Ok?, o.1.env);
      KeptThen(from, st.env, o.0.Ok?, o.1.env);
    } else if e.Assign? {
      AssignLeaves(from, p, e, left, st);
    } else if e.Let? {
      LetLeaves(from, p, e, left, st);
    } else if e.Call? {
      CallLeaves(from, p, At(p, e.func), e.args, left, st);
    } else if e.MethodCall? {
      MethodLeaves(from, p, e, left, st);
    } else if e.Return? {
      MaybeLeaves(from, p, e.value, left, st);
    } else if e.While? {
      WhileLeaves(from, p, e.cond, e.body, MAX_ITERS, left, st);
    } else if e.Loop? {
      LoopLeaves(from, p, e.body, MAX_ITERS, left, st);
    } else if e.For? {
      var (v, s1) := EvalId(p, e.iterable, left, st);
      OneLeaves(from, p, e.iterable, left, st);
      if v.Ok? && Elements(v.value).Ok? {
        ForLeaves(from, p, e.pat, Elements(v.value).value, e.body, left, s1);
      }
    }
  }

  lemma {:induction false} AssignLeaves(from: Env, p: Program, e: Expr, left: nat, st: State)
    requires e.Assign? && Kept(from, st.env)
    ensures var o := EvalControl(p, e, left, st); Leaves(from, o.0.Ok?, o.1.env)
    decreases left, 5, 0
  {
    hide Leaves, EvalId, AssignName;
    var (v, s1) := EvalId(p, e.rhs, left, st);
    OneLeaves(from, p, e.rhs, left, st);
    if v.Ok? && At(p, e.lhs).Path? && |At(p, e.lhs).segments| == 1 {
      AssignKeeps(s1.env, At(p, e.lhs).segments[0], v.value);
      KeptThen(from, s1.env, true, AssignName(s1.env, At(p, e.lhs).segments[0], v.value));
    }
  }

  lemma {:induction false} LetLeaves(from: Env, p: Program, e: Expr, left: nat, st: State)
    requires e.Let? && Kept(from, st.env)
    ensures var o := EvalControl(p, e, left, st); Leaves(from, o.0.Ok?, o.1.env)
    decreases left, 5, 0
  {
    hide Leaves, EvalId, AssignName;
    var (v, s1) := EvalId(p, e.init, left, st);
    IdLeaves(from, p, e.init, left, st);
    if v.Ok? && e.pat.PBinding? {
      AssignKeeps(s1.env, e.pat.name, v.value);
      KeptThen(from, s1.env, true, AssignName(s1.env, e.pat.name, v.value));
    }
  }

  lemma {:induction false} MethodLeaves(from: Env, p: Program, e: Expr, left: nat, st: State)
    requires e.MethodCall? && Kept(from, st.env)
    ensures var o := EvalControl(p, e, left, st); Leaves(from, o.0.Ok?, o.1.env)
    decreases left, 5, 0
  {
    hide Leaves, EvalId, EvalAll;
    var (v, s1) := EvalId(p, e.recv, left, st);
    OneLeaves(from, p, e.recv, left, st);
    if v.Ok? {
      AllLeave(from, p, e.args, left, s1);
      var (vs, s2) := EvalAll(p, e.args, left, s1);
      if vs.Ok? {
        Weaken(from, s2.env);
      }
    }
  }

  lemma {:induction false} IfLeaves(from: Env, p: Program, e: Expr, left: nat, st: State)
    requires e.If? && Kept(from, st.env)
    ensures var o := EvalControl(p, e, left, st); Leaves(from, o.0.Ok?, o.1.env)
    decreases left, 5, 0
  {
    hide Leaves, EvalId, EvalMaybe;
    var (c, s1) := EvalId(p, e.cond, left, st);
    OneLeaves(from, p, e.cond, left, st);
    if c.Ok? && c.value.BoolV? {
      if c.value.b {
        IdLeaves(from, p, e.thn, left, s1);
      } else {
        MaybeLeaves(from, p, e.els, left, s1);
      }
    }
  }

  /**
  Every evaluation, from any state and at any depth, leaves the scopes it started with and their names,
  the innermost perhaps with more; one that succeeds leaves no others.
  */
  lemma ScopesRestored(p: Program, id: Id, left: nat, st: State)
    ensures var o := EvalId(p, id, left, st); Leaves(st.env, o.0.Ok?, o.1.env)
  {
    hide EvalId, Leaves;
    KeptSelf(st.env);
    IdLeaves(st.env, p, id, left, st);
  }

  // ----- when the depth is restored -----

  /** A block restores the depth exactly when its statements succeed and its tail itself restores the depth. */
  lemma BlockRestoresExactly(p: Program, stmts: seq<Id>, tail: Option<Id>, left: nat, st: State)
    ensures var (vs, s1) := EvalAll(p, stmts, left, PushScope(st));
            |EvalBlock(p, stmts, tail, left, st).1.env| == |st.env| <==>
            vs.Ok? && |EvalMaybe(p, tail, left, s1).1.env| == |s1.env|
  {
    hide EvalAll, EvalMaybe;
    var s0 := PushScope(st);
    var (vs, s1) := EvalAll(p, stmts, left, s0);
    KeptSelf(s0.env);
    AllLeave(s0.env, p, stmts, left, s0);
    if vs.Ok? {
      MaybeLeaves(s0.env, p, tail, left, s1);
    }
  }

  /** An invocation restores it exactly when its parameters are bound and its body restores the depth. */
  lemma InvocationRestoresExactly(p: Program, params: seq<Pat>, body: Id, vs: seq<Value>, left: nat, st: State)
    ensures var bound := BindParams(params, vs, PushScope(st).env);
            var s1 := st.(env := bound.env);
            |BindAndEval(p, params, body, vs, left, st).1.env| == |st.env| <==>
            bound.result.Ok? && |EvalId(p, body, left, s1).1.env| == |s1.env|
  {
    hide EvalId, BindParams;
    var s0 := PushScope(st);
    var bound := BindParams(params, vs, s0.env);
    BindParamsKeep(params, vs, s0.env);
    if bound.result.Ok? {
      IdLeaves(s0.env, p, body, left, st.(env := bound.env));
    }
  }

  /** A concrete program: an error in a block's statement leaves its scope on the stack. */
  lemma ErrorLeaksScope(p: Program, st: State)
    requires |p.exprs| == 2 && p.exprs[0] == Block([1], None) && p.exprs[1] == Missing
    ensures Evaluate(p, 0, st).0 == Err(Unsupported) && |Evaluate(p, 0, st).1.env| == |st.env| + 1
  {
    var ids: seq<Id> := [1];
    assert EvalAll(p, ids, 127, PushScope(st)) == (Err(Unsupported), PushScope(st)) by {
      assert EvalId(p, 1, 127, PushScope(st)) == Fail(Unsupported, PushScope(st));
    }
    assert EvalBlock(p, ids, None, 127, st) == Fail(Unsupported, PushScope(st));
    assert EvalExpr(p, p.exprs[0], 128, st) == Fail(Unsupported, PushScope(st));
  }

  // ----- cycles -----

  /** The expression whose evaluation an expression starts with. */
  function First(p: Program, e: Expr): Option<Id> {
    match e
    case Binary(_, lhs, _) => Some(lhs)
    case Unary(_, operand) => Some(operand)
    case If(cond, _, _) => Some(cond)
    case Match(scrutinee, _) => Some(scrutinee)
    case Block(stmts, tail) => if stmts != [] then Some(stmts[0]) else tail
    case Tuple(elems) => if elems != [] then Some(elems[0]) else None
    case Array(elems) => if elems != [] then Some(elems[0]) else None
    case Struct(inits) => if inits != [] then Some(inits[0].init) else None
    case Field(recv, _) => Some(recv)
    case Index(base, _) => Some(base)
    case Cast(operand, _) => Some(operand)
    case Ref(operand) => Some(operand)
    case Assign(_, rhs) => Some(rhs)
    case Let(_, init) => Some(init)
    case Call(func, args) => if args == [] then Invoked(p, At(p, func), 0)
                             else if TakesArgs(At(p, func), |args|) then Some(args[0])
                             else None
    case MethodCall(recv, _, _) => Some(recv)
    case Return(value) => value
    case Range(start, end, _) => if start.Some? then start else end
    case While(cond, _) => Some(cond)
    case Loop(body) => Some(body)
    case For(_, iterable, _) => Some(iterable)
    case _ => None
  }

  /** A call that gets as far as its arguments: of a closure with as many parameters, or by a plain name. */
  predicate TakesArgs(callee: Expr, args: nat) {
    (callee.Closure? && |callee.params| == args) || (callee.Path? && |callee.segments| == 1)
  }

  /** The body a call with this many arguments evaluates, if it is a closure's or a constant function's. */
  function Invoked(p: Program, callee: Expr, args: nat): Option<Id> {
    if callee.Closure? then if |callee.params| == args then Some(callee.body) else None
    else if callee.Path? && |callee.segments| == 1 && callee.segments[0] in p.constFns then
      var f := p.constFns[callee.segments[0]];
      if |f.params| == args then Some(f.body) else None
    else None
  }

  /** Each of these starts by evaluating another of them. */
  predicate Cyclic(p: Program, ids: set<Id>) {
    forall id <- ids :: First(p, At(p, id)).Some? && First(p, At(p, id)).value in ids
  }

  /** Evaluating an expression of a cycle runs into the depth limit, from any depth and state. */
  lemma {:induction false} CycleStops(p: Program, ids: set<Id>, id: Id, left: nat, st: State)
    requires Cyclic(p, ids) && id in ids
    ensures EvalId(p, id, left, st).0 == Err(DepthLimit)
    decreases left
  {
    if left > 0 {
      var e := At(p, id);
      var first := First(p, e).value;
      CycleStops(p, ids, first, left - 1, st);
      CycleStops(p, ids, first, left - 1, PushScope(st));
      FirstFails(p, e, left - 1, st);
    }
  }

  lemma FirstFails(p: Program, e: Expr, left: nat, st: State)
    requires First(p, e).Some?
    requires forall s :: s == st || s == PushScope(st) ==> EvalId(p, First(p, e).value, left, s).0 == Err(DepthLimit)
    ensures EvalExpr(p, e, left + 1, st).0 == Err(DepthLimit)
  {
    hide EvalId, ApplyBinOp, ApplyUnOp, Elements, CastTo, FromOption, AssignName, FieldOf, ElementAt, EvalArms, EvalFor;
    assert EvalId(p, First(p, e).value, left, st).0 == Err(DepthLimit);
    assert EvalId(p, First(p, e).value, left, PushScope(st)).0 == Err(DepthLimit);
    if IsControl(e) {
      if e.Block? {
        assert EvalBlock(p, e.stmts, e.tail, left, st).0 == Err(DepthLimit);
      } else if e.While? {
        assert EvalWhile(p, e.cond, e.body, MAX_ITERS, left, st).0 == Err(DepthLimit);
      } else if e.Loop? {
        assert EvalLoop(p, e.body, MAX_ITERS, left, st).0 == Err(DepthLimit);
      } else if e.Call? {
        assert EvalCall(p, At(p, e.func), e.args, left, st).0 == Err(DepthLimit);
      }
      assert EvalControl(p, e, left, st).0 == Err(DepthLimit);
    } else {
      assert EvalOperation(p, e, left, st).0 == Err(DepthLimit);
    }
  }

  // ----- recursion that nothing ends -----

  predicate AnyIn(es: seq<Id>, ids: set<Id>) {
    exists k :: 0 <= k < |es| && es[k] in ids
  }

  predicate OneIn(e: Option<Id>, ids: set<Id>) {
    e.Some? && e.value in ids
  }

  /** Whatever happens, an evaluation of this that goes through has evaluated one of the ids. */
  predicate Unavoidable(p: Program, e: Expr, ids: set<Id>) {
    match e
    case Binary(_, lhs, rhs) => lhs in ids || rhs in ids
    case Unary(_, operand) => operand in ids
    case If(cond, thn, els) => cond in ids || (thn in ids && OneIn(els, ids))
    case Match(scrutinee, arms) => scrutinee in ids || forall k :: 0 <= k < |arms| ==> arms[k].body in ids
    case Block(stmts, tail) => AnyIn(stmts, ids) || OneIn(tail, ids)
    case Tuple(elems) => AnyIn(elems, ids)
    case Array(elems) => AnyIn(elems, ids)
    case Struct(inits) => AnyIn(InitIds(inits), ids)
    case Field(recv, _) => recv in ids
    case Index(base, index) => base in ids || index in ids
    case Cast(operand, _) => operand in ids
    case Ref(operand) => operand in ids
    case Assign(_, rhs) => rhs in ids
    case Let(_, init) => init in ids
    case Call(func, args) => AnyIn(args, ids) || OneIn(Invoked(p, At(p, func), |args|), ids)
    case MethodCall(recv, _, args) => recv in ids || AnyIn(args, ids)
    case Return(value) => OneIn(value, ids)
    case Range(start, end, _) => OneIn(start, ids) || OneIn(end, ids)
    case While(cond, _) => cond in ids
    case Loop(body) => body in ids
    case For(_, iterable, _) => iterable in ids
    case _ => false
  }

  ghost predicate AllFail(p: Program, ids: set<Id>, left: nat) {
    forall id, st :: id in ids ==> EvalId(p, id, left, st).0.Err?
  }

  /**
  When none of a set of expressions can be evaluated without another of them (functions that call each
  other on every branch, arguments or not), none of them ever has a value, from any depth and state.
  */
  lemma {:induction false} RecursionFails(p: Program, ids: set<Id>, left: nat)
    requires forall id <- ids :: Unavoidable(p, At(p, id), ids)
    ensures AllFail(p, ids, left)
    decreases left
  {
    hide EvalExpr, Unavoidable;
    if left > 0 {
      RecursionFails(p, ids, left - 1);
    }
    forall id, st | id in ids
      ensures EvalId(p, id, left, st).0.Err?
    {
      if left > 0 {
        UnavoidableFails(p, At(p, id), ids, left - 1, st);
      } else {
        NothingLeftFails(p, At(p, id), st);
      }
    }
  }

  lemma NothingLeftFails(p: Program, e: Expr, st: State)
    ensures EvalExpr(p, e, 0, st).0 == Err(DepthLimit)
  {
  }

  lemma UnavoidableFails(p: Program, e: Expr, ids: set<Id>, left: nat, st: State)
    requires AllFail(p, ids, left) && Unavoidable(p, e, ids)
    ensures EvalExpr(p, e, left + 1, st).0.Err?
  {
    hide EvalId, EvalAll, EvalArms, EvalBlock, EvalCall, EvalWhile, EvalLoop, EvalFor, AnyIn, Matches;
    if IsControl(e) {
      ControlFails(p, e, ids, left, st);
    } else {
      OperationFails(p, e, ids, left, st);
    }
  }

  lemma MaybeFails(p: Program, e: Option<Id>, ids: set<Id>, left: nat, st: State)
    requires AllFail(p, ids, left) && OneIn(e, ids)
    ensures EvalMaybe(p, e, left, st).0.Err? && EvalBound(p, e, left, st).0.Err?
  {
    hide EvalId;
  }

  lemma BodyFails(p: Program, params: seq<Pat>, body: Id, vs: seq<Value>, ids: set<Id>, left: nat, st: State)
    requires AllFail(p, ids, left) && body in ids
    ensures BindAndEval(p, params, body, vs, left, st).0.Err?
  {
    hide EvalId, BindParams;
  }

  lemma OperationFails(p: Program, e: Expr, ids: set<Id>, left: nat, st: State)
    requires AllFail(p, ids, left) && Unavoidable(p, e, ids) && !IsControl(e)
    ensures EvalOperation(p, e, left, st).0.Err?
  {
    hide EvalId, EvalAll, AnyIn, ApplyBinOp, ApplyUnOp, ElementAt, FieldOf, CastTo, FromOption;
    if e.Tuple? || e.Array? {
      AllFails(p, e.elems, ids, left, st);
    } else if e.Struct? {
      AllFails(p, InitIds(e.inits), ids, left, st);
    } else if e.Range? {
      if OneIn(e.start, ids) {
        MaybeFails(p, e.start, ids, left, st);
      } else {
        MaybeFails(p, e.end, ids, left, EvalBound(p, e.start, left, st).1);
      }
    } else if e.Binary? && e.lhs !in ids {
      var s1 := EvalId(p, e.lhs, left, st).1;
      assert EvalId(p, e.rhs, left, s1).0.Err?;
    } else if e.Index? && e.base !in ids {
      var s1 := EvalId(p, e.base, left, st).1;
      assert EvalId(p, e.index, left, s1).0.Err?;
    }
  }

  lemma ControlFails(p: Program, e: Expr, ids: set<Id>, left: nat, st: State)
    requires AllFail(p, ids, left) && Unavoidable(p, e, ids) && IsControl(e)
    ensures EvalControl(p, e, left, st).0.Err?
  {
    hide EvalId, EvalAll, EvalArms, EvalBlock, EvalCall, EvalWhile, EvalLoop, EvalFor, AnyIn, FromOption, AssignName,
         Elements;
    match e {
      case Match(scrutinee, arms) => MatchFails(p, arms, ids, EvalId(p, scrutinee, left, st), left, scrutinee in ids);
      case If(cond, _, els) =>
        if cond !in ids {
          MaybeFails(p, els, ids, left, EvalId(p, cond, left, st).1);
        }
      case Return(value) => MaybeFails(p, value, ids, left, st);
      case Block(stmts, tail) => BlockFails(p, stmts, tail, ids, left, st);
      case Call(func, args) => CallFails(p, At(p, func), args, ids, left, st);
      case MethodCall(recv, _, args) =>
        if recv !in ids {
          AllFails(p, args, ids, left, EvalId(p, recv, left, st).1);
        }
      case While(cond, body) => WhileFails(p, cond, body, ids, left, st);
      case Loop(body) => LoopFails(p, body, ids, left, st);
      case _ => StartFails(p, e, ids, left, st);
    }
  }

  lemma StartFails(p: Program, e: Expr, ids: set<Id>, left: nat, st: State)
    requires AllFail(p, ids, left) && Unavoidable(p, e, ids) && (e.Assign? || e.Let? || e.For?)
    ensures EvalControl(p, e, left, st).0.Err?
  {
    hide EvalId, EvalFor, AssignName, Elements;
  }

  lemma MatchFails(p: Program, arms: seq<Arm>, ids: set<Id>, o: Outcome, left: nat, early: bool)
    requires AllFail(p, ids, left) && (early || forall k :: 0 <= k < |arms| ==> arms[k].body in ids)
    ensures o.0.Ok? && !early ==> EvalArms(p, arms, o.0.value, left, o.1).0.Err?
  {
    hide EvalId, EvalArms;
    if o.0.Ok? && !early {
      ArmsFail(p, arms, ids, o.0.value, left, o.1);
    }
  }

  lemma {:induction false} AllFails(p: Program, es: seq<Id>, ids: set<Id>, left: nat, st: State)
    requires AllFail(p, ids, left) && AnyIn(es, ids)
    ensures es != [] && EvalAll(p, es, left, st).0.Err?
    decreases |es|
  {
    hide EvalId;
    if es[0] !in ids {
      var k :| 0 <= k < |es| && es[k] in ids;
      assert es[1..][k - 1] == es[k];
      AllFails(p, es[1..], ids, left, EvalId(p, es[0], left, st).1);
    }
  }

  lemma {:induction false} ArmsFail(p: Program, arms: seq<Arm>, ids: set<Id>, v: Value, left: nat, st: State)
    requires AllFail(p, ids, left) && forall k :: 0 <= k < |arms| ==> arms[k].body in ids
    ensures EvalArms(p, arms, v, left, st).0.Err?
    decreases |arms|
  {
    hide EvalId, Matches;
    if arms != [] {
      ArmsFail(p, arms[1..], ids, v, left, st.(env := Matches(arms[0].pat, v, st.env).env));
    }
  }

  lemma BlockFails(p: Program, stmts: seq<Id>, tail: Option<Id>, ids: set<Id>, left: nat, st: State)
    requires AllFail(p, ids, left) && (AnyIn(stmts, ids) || OneIn(tail, ids))
    ensures EvalBlock(p, stmts, tail, left, st).0.Err?
  {
    hide EvalId, EvalAll, AnyIn;
    if AnyIn(stmts, ids) {
      AllFails(p, stmts, ids, left, PushScope(st));
    } else {
      MaybeFails(p, tail, ids, left, EvalAll(p, stmts, left, PushScope(st)).1);
    }
  }

  lemma CallFails(p: Program, callee: Expr, args: seq<Id>, ids: set<Id>, left: nat, st: State)
    requires AllFail(p, ids, left) && (AnyIn(args, ids) || OneIn(Invoked(p, callee, |args|), ids))
    ensures EvalCall(p, callee, args, left, st).0.Err?
  {
    hide EvalId, EvalAll, AnyIn, BindParams, FromOption;
    var (vs, s1) := EvalAll(p, args, left, st);
    if AnyIn(args, ids) {
      AllFails(p, args, ids, left, st);
    } else if vs.Ok? {
      AllCount(p, args, left, st);
      var params := if callee.Closure? then callee.params else p.constFns[callee.segments[0]].params;
      BodyFails(p, params, Invoked(p, callee, |args|).value, vs.value, ids, left, s1);
    }
  }

  lemma {:induction false} AllCount(p: Program, es: seq<Id>, left: nat, st: State)
    ensures EvalAll(p, es, left, st).0.Ok? ==> |EvalAll(p, es, left, st).0.value| == |es|
    decreases |es|
  {
    hide EvalId;
    if es != [] {
      AllCount(p, es[1..], left, EvalId(p, es[0], left, st).1);
    }
  }

  lemma WhileFails(p: Program, cond: Id, body: Id, ids: set<Id>, left: nat, st: State)
    requires AllFail(p, ids, left) && cond in ids
    ensures EvalWhile(p, cond, body, MAX_ITERS, left, st).0.Err?
  {
    hide EvalId;
  }

  lemma LoopFails(p: Program, body: Id, ids: set<Id>, left: nat, st: State)
    requires AllFail(p, ids, left) && body in ids
    ensures EvalLoop(p, body, MAX_ITERS, left, st).0.Err?
  {
    hide EvalId;
  }
}
