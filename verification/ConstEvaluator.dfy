/** The evaluator as it runs, with its scope stack and loop signal updated in place. */
module ConstEvaluator {
  import opened ConstEval
  import opened ConstValue
  import opened Wrappers

  class Evaluator {
    const p: Program
    var env: Env
    var loopControl: Option<Control>

    constructor (p: Program)
      ensures this.p == p && Now() == State([map[]], None)
    {
      this.p := p;
      env, loopControl := [map[]], None;
    }

    ghost function Now(): State
      reads this
    {
      State(env, loopControl)
    }

    method EvaluateAtDepth(id: Id, left: nat) returns (r: Result<Value, Failure>)
      modifies this
      ensures (r, Now()) == EvalId(p, id, left, old(Now()))
      decreases left, 1, 0
    {
      hide EvalExpr;
      r := EvaluateExpr(At(p, id), left);
    }

    method EvaluateExpr(e: Expr, left: nat) returns (r: Result<Value, Failure>)
      modifies this
      ensures (r, Now()) == EvalExpr(p, e, left, old(Now()))
      decreases left, 0, 0
    {
      hide EvalOperation, EvalControl;
      if left == 0 {
        return Err(DepthLimit);
      }
      if IsControl(e) {
        r := EvaluateControl(e, left - 1);
      } else {
        r := EvaluateOperation(e, left - 1);
      }
    }

    method EvaluateOperation(e: Expr, left: nat) returns (r: Result<Value, Failure>)
      requires !IsControl(e)
      modifies this
      ensures (r, Now()) == EvalOperation(p, e, left, old(Now()))
      decreases left, 6, 0
    {
      hide EvalId, EvalAll, EvalMaybe, EvalBound, EvalArms, EvalBlock, EvalCall, EvalWhile, EvalLoop, EvalFor, EvalPath;
      hide ApplyBinOp, ApplyUnOp, FieldOf, ElementAt, CastTo, AssignName, Elements;
      match e {
        case Literal(l) => r := Ok(LitValue(l));
        case Binary(op, lhs, rhs) =>
          var x := EvaluateAtDepth(lhs, left);
          if x.Err? { return x; }
          var y := EvaluateAtDepth(rhs, left);
          if y.Err? { return y; }
          r := ApplyBinOp(p, op, x.value, y.value);
        case Unary(op, operand) =>
          var x := EvaluateAtDepth(operand, left);
          if x.Err? { return x; }
          r := ApplyUnOp(p, op, x.value);
        case Tuple(elems) =>
          if elems == [] { return Ok(UnitV); }
          var vs := EvaluateAll(elems, left);
          r := if vs.Err? then Err(vs.error) else Ok(TupleV(vs.value));
        case Path(segments) => r := EvalPath(p, segments, env);
        case Field(recv, field) =>
          var v := EvaluateAtDepth(recv, left);
          r := if v.Err? then v else FieldOf(v.value, field);
        case Index(base, index) =>
          var b := EvaluateAtDepth(base, left);
          if b.Err? { return b; }
          var k := EvaluateAtDepth(index, left);
          r := if k.Err? then k else ElementAt(b.value, k.value);
        case Array(elems) =>
          var vs := EvaluateAll(elems, left);
          r := if vs.Err? then Err(vs.error) else Ok(ArrayV(vs.value));
        case Struct(inits) =>
          var vs := EvaluateAll(InitIds(inits), left);
          r := if vs.Err? then Err(vs.error) else Ok(StructV(Named(inits, vs.value)));
        case Cast(operand, target) =>
          var v := EvaluateAtDepth(operand, left);
          r := if v.Err? then v else FromOption(CastTo(v.value, target));
        case Ref(operand) => r := EvaluateAtDepth(operand, left);
        case Closure(_, _) => r := Err(Unsupported);
        case Range(start, end, inclusive) =>
          var a := EvaluateBound(start, left);
          if a.Err? { return Err(a.error); }
          var b := EvaluateBound(end, left);
          r := if b.Err? then Err(b.error) else Ok(RangeV(a.value, b.value, inclusive));
        case Missing => r := Err(Unsupported);
      }
    }

    method EvaluateControl(e: Expr, left: nat) returns (r: Result<Value, Failure>)
      requires IsControl(e)
      modifies this
      ensures (r, Now()) == EvalControl(p, e, left, old(Now()))
      decreases left, 6, 0
    {
      hide EvalId, EvalAll, EvalMaybe, EvalBound, EvalArms, EvalBlock, EvalCall, EvalWhile, EvalLoop, EvalFor, EvalPath;
      hide ApplyBinOp, ApplyUnOp, FieldOf, ElementAt, CastTo, AssignName, Elements;
      match e {
        case If(cond, thn, els) =>
          var c := EvaluateAtDepth(cond, left);
          if c.Err? { return c; }
          if !c.value.BoolV? { return Err(Mismatch); }
          if c.value.b {
            r := EvaluateAtDepth(thn, left);
          } else {
            r := EvaluateMaybe(els, left);
          }
        case Match(scrutinee, arms) =>
          var v := EvaluateAtDepth(scrutinee, left);
          if v.Err? { return v; }
          r := EvaluateArms(arms, v.value, left);
        case Block(stmts, tail) => r := EvaluateBlock(stmts, tail, left);
        case Assign(lhs, rhs) =>
          var v := EvaluateAtDepth(rhs, left);
          if v.Err? { return v; }
          var target := At(p, lhs);
          if target.Path? && |target.segments| == 1 {
            env := AssignName(env, target.segments[0], v.value);
            return Ok(UnitV);
          }
          r := Err(Unsupported);
        case Let(pat, init) =>
          var v := EvaluateAtDepth(init, left);
          if v.Err? { return v; }
          if pat.PBinding? {
            env := AssignName(env, pat.name, v.value);
          }
          r := Ok(UnitV);
        case Call(func, args) => r := EvaluateCall(At(p, func), args, left);
        case MethodCall(recv, name, args) =>
          var v := EvaluateAtDepth(recv, left);
          if v.Err? { return v; }
          if !p.host.known(name) { return Err(Unsupported); }
          var vs := EvaluateAll(args, left);
          r := if vs.Err? then Err(vs.error) else FromOption(p.host.builtin(name, [v.value] + vs.value));
        case Return(value) => r := EvaluateMaybe(value, left);
        case Break =>
          loopControl := Some(BreakOut);
          r := Ok(UnitV);
        case Continue =>
          loopControl := Some(ContinueOn);
          r := Ok(UnitV);
        case While(cond, body) => r := EvaluateWhile(cond, body, left);
        case Loop(body) => r := EvaluateLoop(body, left);
        case For(pat, iterable, body) =>
          var v := EvaluateAtDepth(iterable, left);
          if v.Err? { return v; }
          var elems := Elements(v.value);
          if elems.Err? { return Err(elems.error); }
          r := EvaluateFor(pat, elems.value, body, left);
      }
    }

    method EvaluateMaybe(id: Option<Id>, left: nat) returns (r: Result<Value, Failure>)
      modifies this
      ensures (r, Now()) == EvalMaybe(p, id, left, old(Now()))
      decreases left, 2, 0
    {
      hide EvalId;
      if id.Some? {
        r := EvaluateAtDepth(id.value, left);
      } else {
        r := Ok(UnitV);
      }
    }

    method EvaluateBound(id: Option<Id>, left: nat) returns (r: Result<Option<Value>, Failure>)
      modifies this
      ensures (r, Now()) == EvalBound(p, id, left, old(Now()))
      decreases left, 2, 0
    {
      hide EvalId;
      if id.None? {
        return Ok(None);
      }
      var v := EvaluateAtDepth(id.value, left);
      r := if v.Err? then Err(v.error) else Ok(Some(v.value));
    }

    method EvaluateAll(ids: seq<Id>, left: nat) returns (r: Result<seq<Value>, Failure>)
      modifies this
      ensures (r, Now()) == EvalAll(p, ids, left, old(Now()))
      decreases left, 3, |ids|
    {
      hide EvalId;
      ghost var start := Now();
      var values := [];
      PrefixedNone(EvalAll(p, ids, left, start));
      for k := 0 to |ids|
        invariant EvalAll(p, ids, left, start) == Prefixed(values, EvalAll(p, ids[k..], left, Now()))
      {
        assert ids[k..][0] == ids[k] && ids[k..][1..] == ids[k + 1..];
        ghost var before := Now();
        var v := EvaluateAtDepth(ids[k], left);
        if v.Err? {
          return Err(v.error);
        }
        assert EvalAll(p, ids[k..], left, before) == Prefixed([v.value], EvalAll(p, ids[k + 1..], left, Now()));
        PrefixedStep(values, v.value, EvalAll(p, ids[k + 1..], left, Now()));
        values := values + [v.value];
      }
      assert values + [] == values;
      r := Ok(values);
    }

    method EvaluateArms(arms: seq<Arm>, v: Value, left: nat) returns (r: Result<Value, Failure>)
      modifies this
      ensures (r, Now()) == EvalArms(p, arms, v, left, old(Now()))
      decreases left, 3, |arms|
    {
      hide EvalId, Matches;
      ghost var start := Now();
      for k := 0 to |arms|
        invariant EvalArms(p, arms, v, left, start) == EvalArms(p, arms[k..], v, left, Now())
      {
        assert arms[k..][0] == arms[k] && arms[k..][1..] == arms[k + 1..];
        var m := Matches(arms[k].pat, v, env);
        env := m.env;
        if m.result.Err? {
          return Err(m.result.error);
        }
        if m.result.value {
          r := EvaluateAtDepth(arms[k].body, left);
          return;
        }
      }
      r := Err(NoMatch);
    }

    method EvaluateBlock(stmts: seq<Id>, tail: Option<Id>, left: nat) returns (r: Result<Value, Failure>)
      modifies this
      ensures (r, Now()) == EvalBlock(p, stmts, tail, left, old(Now()))
      decreases left, 4, 0
    {
      hide EvalAll, EvalMaybe;
      env := env + [map[]];
      var vs := EvaluateAll(stmts, left);
      if vs.Err? {
        return Err(vs.error);
      }
      r := EvaluateMaybe(tail, left);
      Pop();
    }

    method Pop()
      modifies this`env
      ensures Now() == PopScope(old(Now()))
    {
      if env != [] {
        env := env[..|env| - 1];
      }
    }

    method EvaluateCall(callee: Expr, args: seq<Id>, left: nat) returns (r: Result<Value, Failure>)
      modifies this
      ensures (r, Now()) == EvalCall(p, callee, args, left, old(Now()))
      decreases left, 5, 0
    {
      hide EvalAll, BindAndEval;
      if callee.Closure? {
        if |callee.params| != |args| {
          return Err(Mismatch);
        }
        var vs := EvaluateAll(args, left);
        if vs.Err? {
          return Err(vs.error);
        }
        r := BindAndEvaluate(callee.params, callee.body, vs.value, left);
        return;
      }
      if !callee.Path? || |callee.segments| != 1 {
        return Err(Unsupported);
      }
      var name := callee.segments[0];
      var vs := EvaluateAll(args, left);
      if vs.Err? {
        return Err(vs.error);
      }
      if name in p.constFns {
        var f := p.constFns[name];
        if |f.params| != |vs.value| {
          return Err(Mismatch);
        }
        r := BindAndEvaluate(f.params, f.body, vs.value, left);
      } else {
        r := FromOption(p.host.builtin(name, vs.value));
      }
    }

    method BindAndEvaluate(params: seq<Pat>, body: Id, vs: seq<Value>, left: nat) returns (r: Result<Value, Failure>)
      modifies this
      ensures (r, Now()) == BindAndEval(p, params, body, vs, left, old(Now()))
      decreases left, 4, 0
    {
      hide EvalId, Matches;
      ghost var before := Now();
      env := env + [map[]];
      ghost var pushed := env;
      var n := if |params| < |vs| then |params| else |vs|;
      for k := 0 to n
        invariant loopControl == before.control
        invariant BindParams(params, vs, pushed) == BindParams(params[k..], vs[k..], env)
      {
        assert params[k..][0] == params[k] && params[k..][1..] == params[k + 1..];
        assert vs[k..][0] == vs[k] && vs[k..][1..] == vs[k + 1..];
        var m := Matches(params[k], vs[k], env);
        env := m.env;
        if m.result.Err? {
          return Err(m.result.error);
        }
      }
      r := EvaluateAtDepth(body, left);
      Pop();
    }

    method EvaluateWhile(cond: Id, body: Id, left: nat) returns (r: Result<Value, Failure>)
      modifies this
      ensures (r, Now()) == EvalWhile(p, cond, body, MAX_ITERS, left, old(Now()))
      decreases left, 2, MAX_ITERS
    {
      hide EvalId;
      ghost var start := Now();
      for k := 0 to MAX_ITERS
        invariant EvalWhile(p, cond, body, MAX_ITERS, left, start) ==
                  EvalWhile(p, cond, body, MAX_ITERS - k, left, Now())
      {
        var c := EvaluateAtDepth(cond, left);
        if c.Err? {
          return c;
        }
        if !c.value.BoolV? {
          return Err(Mismatch);
        }
        if !c.value.b {
          loopControl := None;
          return Ok(UnitV);
        }
        var b := EvaluateAtDepth(body, left);
        if b.Err? {
          return b;
        }
        var stop := TakeControl();
        if stop {
          return Ok(UnitV);
        }
      }
      r := Err(IterationLimit);
    }

    /** Take the signal; was it a break? */
    method TakeControl() returns (stop: bool)
      modifies this`loopControl
      ensures loopControl == None && stop == Stops(old(loopControl))
    {
      stop := loopControl == Some(BreakOut);
      loopControl := None;
    }

    method EvaluateLoop(body: Id, left: nat) returns (r: Result<Value, Failure>)
      modifies this
      ensures (r, Now()) == EvalLoop(p, body, MAX_ITERS, left, old(Now()))
      decreases left, 2, MAX_ITERS
    {
      hide EvalId;
      ghost var start := Now();
      for k := 0 to MAX_ITERS
        invariant EvalLoop(p, body, MAX_ITERS, left, start) == EvalLoop(p, body, MAX_ITERS - k, left, Now())
      {
        var b := EvaluateAtDepth(body, left);
        if b.Err? {
          return b;
        }
        var stop := TakeControl();
        if stop {
          return Ok(UnitV);
        }
      }
      r := Err(IterationLimit);
    }

    method EvaluateFor(pat: Pat, elems: seq<Value>, body: Id, left: nat) returns (r: Result<Value, Failure>)
      modifies this
      ensures (r, Now()) == EvalFor(p, pat, elems, body, left, old(Now()))
      decreases left, 2, |elems|
    {
      hide EvalId, Matches;
      ghost var start := Now();
      for k := 0 to |elems|
        invariant EvalFor(p, pat, elems, body, left, start) == EvalFor(p, pat, elems[k..], body, left, Now())
      {
        assert elems[k..][0] == elems[k] && elems[k..][1..] == elems[k + 1..];
        var m := Matches(pat, elems[k], env);
        env := m.env;
        if m.result.Err? {
          return Err(m.result.error);
        }
        var b := EvaluateAtDepth(body, left);
        if b.Err? {
          return b;
        }
        var stop := TakeControl();
        if stop {
          return Ok(UnitV);
        }
      }
      r := Ok(UnitV);
    }
  }

  function Prefixed(values: seq<Value>, rest: (Result<seq<Value>, Failure>, State))
    : (Result<seq<Value>, Failure>, State)
  {
    (if rest.0.Err? then rest.0 else Ok(values + rest.0.value), rest.1)
  }

  lemma PrefixedNone(rest: (Result<seq<Value>, Failure>, State))
    ensures Prefixed([], rest) == rest
  {
    if rest.0.Ok? {
      assert [] + rest.0.value == rest.0.value;
    }
  }

  lemma PrefixedStep(values: seq<Value>, v: Value, rest: (Result<seq<Value>, Failure>, State))
    ensures Prefixed(values + [v], rest) == Prefixed(values, Prefixed([v], rest))
  {
    if rest.0.Ok? {
      assert (values + [v]) + rest.0.value == values + ([v] + rest.0.value);
    }
  }
}
