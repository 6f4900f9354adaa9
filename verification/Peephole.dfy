/** The instruction decoder and the peephole pass (crates/glyim-codegen/src/lib.rs). */
module Peephole {
  import opened Int64
  import opened Wire
  import opened Wrappers
  import opened CodegenSpec

  datatype Instr = Instr(op: u8, operand: Bytes)

  // ----- decoding: None where the Rust code panics on an out-of-range slice -----

  /** The next n bytes from i on, or as many as there are. */
  function Take(bc: Bytes, i: nat, n: nat): Bytes
    requires i <= |bc|
  {
    if i + n <= |bc| then bc[i..i + n] else bc[i..]
  }

  /** Operand bytes of a fixed-width opcode as the decoder's table has them. */
  function Width(op: u8): nat {
    if op == OP_LOAD_CONST then 8
    else if op == OP_LOAD_LOCAL || op == OP_STORE_LOCAL || op == OP_JUMP || op == OP_JUMP_IF || op == OP_LEN then 4
    else if op == OP_CAST then 1
    else 0
  }

  predicate HasInner(op: u8) {
    op == OP_AGGREGATE || op == OP_CALL || op == OP_CALL_INDIRECT
  }

  predicate FixedWidth(op: u8) {
    !HasInner(op) && op != OP_ASSERT && op != OP_SWITCH_INT
  }

  /** n copies of the twelve bytes at i: every arm re-reads the same place. */
  function RepeatedPairs(bc: Bytes, i: nat, n: nat): Bytes
    requires i <= |bc|
  {
    if n == 0 then [] else RepeatedPairs(bc, i, n - 1) + Take(bc, i, 12)
  }

  /** The operand of the instruction whose opcode precedes i, and how far the decoder moves. */
  function DecodeOperand(bc: Bytes, i: nat, op: u8): Option<(Bytes, nat)>
    requires i <= |bc|
    decreases |bc| - i, 1, 0
  {
    if op == OP_ASSERT then
      Some((Take(bc, i, 1) + Take(bc, i, 4), |Take(bc, i, 1)| + |Take(bc, i, 4)|))
    else if HasInner(op) then
      var cnt := Take(bc, i, 4);
      if |cnt| < 4 then Some((cnt, 4))
      else
        match DecodeInner(bc, i, ReadU32(cnt), cnt, 4)
        case None => None
        case Some((v, consumed)) =>
          if op == OP_AGGREGATE then Some((v, consumed))
          else Some((v + Take(bc, i, 8), consumed + |Take(bc, i, 8)|))
    else if op == OP_SWITCH_INT then
      var cnt := Take(bc, i, 4);
      if |cnt| < 4 then Some((cnt, 4))
      else
        var n: nat := ReadU32(cnt);
        Some((cnt + RepeatedPairs(bc, i, n) + Take(bc, i, 4), 4 + |RepeatedPairs(bc, i, n)| + |Take(bc, i, 4)|))
    else Some((Take(bc, i, Width(op)), |Take(bc, i, Width(op))|))
  }

  /** Up to count whole instructions after the first `consumed` operand bytes. */
  function DecodeInner(bc: Bytes, i: nat, count: nat, v: Bytes, consumed: nat): Option<(Bytes, nat)>
    requires i <= |bc| && consumed > 0
    decreases |bc| - i, 0, count
  {
    if count == 0 || i + consumed >= |bc| then Some((v, consumed))
    else
      match DecodeBytecode(bc[i + consumed..])
      case None => None
      case Some(inner) =>
        if inner == [] then Some((v, consumed))
        else
          var used := 1 + |inner[0].operand|;
          if i + consumed + used > |bc| then None
          else DecodeInner(bc, i, count - 1, v + bc[i + consumed..i + consumed + used], consumed + used)
  }

  function DecodeBytecode(bc: Bytes): Option<seq<Instr>>
    decreases |bc|, 1, 0
  {
    DecodeFrom(bc, 0)
  }

  function DecodeFrom(bc: Bytes, i: nat): Option<seq<Instr>>
    decreases if i < |bc| then |bc| - i else 0, 0, 0
  {
    if i >= |bc| then Some([])
    else
      match DecodeOperand(bc, i + 1, bc[i])
      case None => None
      case Some((operand, consumed)) =>
        Keep(Instr(bc[i], operand), DecodeFrom(bc, i + 1 + consumed))
  }

  function Encode(instrs: seq<Instr>): Bytes {
    if instrs == [] then [] else [instrs[0].op] + instrs[0].operand + Encode(instrs[1..])
  }

  function Keep(i: Instr, rest: Option<seq<Instr>>): Option<seq<Instr>> {
    if rest.Some? then Some([i] + rest.value) else None
  }

  /** The instructions already put out, followed by the rest if there is one. */
  function Join(out: seq<Instr>, rest: Option<seq<Instr>>): Option<seq<Instr>> {
    if rest.Some? then Some(out + rest.value) else None
  }

  lemma JoinNone(out: seq<Instr>)
    ensures Join(out, None) == None
  {
  }

  lemma JoinEnd(out: seq<Instr>)
    ensures Join(out, Some([])) == Some(out)
  {
    assert out + [] == out;
  }

  lemma JoinLaws(out: seq<Instr>)
    ensures forall r {:trigger Join([], r)} :: Join([], r) == r
    ensures forall i, r {:trigger Join(out + [i], r)} :: Join(out + [i], r) == Join(out, Keep(i, r))
  {
    forall r
      ensures Join([], r) == r
    {
      if r.Some? {
        assert [] + r.value == r.value;
      }
    }
    forall i, r
      ensures Join(out + [i], r) == Join(out, Keep(i, r))
    {
      if r.Some? {
        assert (out + [i]) + r.value == out + ([i] + r.value);
      }
    }
  }

  // ----- the same algorithms in the loops the backend runs -----

  method RunDecodeBytecode(bc: Bytes) returns (r: Option<seq<Instr>>)
    ensures r == DecodeBytecode(bc)
    decreases |bc|, 1
  {
    hide DecodeOperand, Join, Keep;
    var instrs: seq<Instr> := [];
    var i := 0;
    JoinLaws(instrs);
    while i < |bc|
      invariant DecodeBytecode(bc) == Join(instrs, DecodeFrom(bc, i))
      decreases |bc| - i
    {
      JoinLaws(instrs);
      JoinNone(instrs);
      var decoded := RunDecodeOperand(bc, i + 1, bc[i]);
      if decoded.None? {
        return None;
      }
      var (operand, consumed) := decoded.value;
      instrs := instrs + [Instr(bc[i], operand)];
      i := i + 1 + consumed;
    }
    JoinEnd(instrs);
    r := Some(instrs);
  }

  method RunDecodeOperand(bc: Bytes, i: nat, op: u8) returns (r: Option<(Bytes, nat)>)
    requires i <= |bc|
    ensures r == DecodeOperand(bc, i, op)
    decreases |bc| - i, 1
  {
    if op == OP_ASSERT {
      var a, b := Take(bc, i, 1), Take(bc, i, 4);
      return Some((a + b, |a| + |b|));
    }
    if HasInner(op) {
      var cnt := Take(bc, i, 4);
      if |cnt| < 4 {
        return Some((cnt, 4));
      }
      var inner := RunDecodeInner(bc, i, ReadU32(cnt), cnt, 4);
      if inner.None? || op == OP_AGGREGATE {
        return inner;
      }
      var rest := Take(bc, i, 8);
      return Some((inner.value.0 + rest, inner.value.1 + |rest|));
    }
    if op == OP_SWITCH_INT {
      var cnt := Take(bc, i, 4);
      if |cnt| < 4 {
        return Some((cnt, 4));
      }
      var pairs := ReadPairs(bc, i, ReadU32(cnt));
      var otherwise := Take(bc, i, 4);
      return Some((cnt + pairs + otherwise, 4 + |pairs| + |otherwise|));
    }
    var operand := Take(bc, i, Width(op));
    r := Some((operand, |operand|));
  }

  method ReadPairs(bc: Bytes, i: nat, n: nat) returns (v: Bytes)
    requires i <= |bc|
    ensures v == RepeatedPairs(bc, i, n)
  {
    v := [];
    for k := 0 to n
      invariant v == RepeatedPairs(bc, i, k)
    {
      v := v + Take(bc, i, 12);
    }
  }

  method RunDecodeInner(bc: Bytes, i: nat, count: nat, start: Bytes, from: nat) returns (r: Option<(Bytes, nat)>)
    requires i <= |bc| && from > 0
    ensures r == DecodeInner(bc, i, count, start, from)
    decreases |bc| - i, 0
  {
    var v, consumed := start, from;
    for k := 0 to count
      invariant consumed > 0
      invariant DecodeInner(bc, i, count, start, from) == DecodeInner(bc, i, count - k, v, consumed)
    {
      if i + consumed >= |bc| {
        break;
      }
      var inner := RunDecodeBytecode(bc[i + consumed..]);
      if inner.None? {
        return None;
      }
      if inner.value == [] {
        break;
      }
      var used := 1 + |inner.value[0].operand|;
      if i + consumed + used > |bc| {
        return None;
      }
      v, consumed := v + bc[i + consumed..i + consumed + used], consumed + used;
    }
    r := Some((v, consumed));
  }

  method RunEncode(instrs: seq<Instr>) returns (bc: Bytes)
    ensures bc == Encode(instrs)
  {
    bc := [];
    for k := 0 to |instrs|
      invariant Encode(instrs) == bc + Encode(instrs[k..])
    {
      assert instrs[k..][0] == instrs[k] && instrs[k..][1..] == instrs[k + 1..];
      bc := bc + [instrs[k].op] + instrs[k].operand;
    }
  }

  // ----- constant folding and double negation -----

  datatype FoldResult = Folded(value: i64) | NotFoldable | FoldPanics

  /** `%` on two constants panics in the compiler where the machine would trap. */
  function FoldIntBinop(op: u8, a: i64, b: i64): FoldResult {
    if op == OP_ADD then Folded(Wrap(a + b))
    else if op == OP_SUB then Folded(Wrap(a - b))
    else if op == OP_MUL then Folded(Wrap(a * b))
    else if op == OP_DIV then (match CheckedDiv(a, b) case Some(q) => Folded(q) case None => NotFoldable)
    else if op == OP_REM then (match CheckedRem(a, b) case Some(r) => Folded(r) case None => FoldPanics)
    else if op == OP_EQ then Folded(Bool(a == b))
    else if op == OP_NE then Folded(Bool(a != b))
    else if op == OP_LT then Folded(Bool(a < b))
    else if op == OP_GT then Folded(Bool(a > b))
    else if op == OP_LE then Folded(Bool(a <= b))
    else if op == OP_GE then Folded(Bool(a >= b))
    else if op == OP_AND then Folded(Bool(a != 0 && b != 0))
    else if op == OP_OR then Folded(Bool(a != 0 || b != 0))
    else if op == OP_BITAND then Folded(Bitwise(AndBits, a, b))
    else if op == OP_BITOR then Folded(Bitwise(OrBits, a, b))
    else if op == OP_BITXOR then Folded(Bitwise(XorBits, a, b))
    else if op == OP_SHL then Folded(Shl(a, b))
    else if op == OP_SHR then Folded(Shr(a, b))
    else NotFoldable
  }

  predicate IsFoldable(op: u8) {
    || op == OP_ADD || op == OP_SUB || op == OP_MUL || op == OP_DIV || op == OP_REM
    || op == OP_EQ || op == OP_NE || op == OP_LT || op == OP_GT || op == OP_LE || op == OP_GE
    || op == OP_AND || op == OP_OR || op == OP_BITAND || op == OP_BITOR || op == OP_BITXOR
    || op == OP_SHL || op == OP_SHR
  }

  /** Every constant load carries its eight bytes. */
  predicate WholeConstants(instrs: seq<Instr>) {
    forall k :: 0 <= k < |instrs| && instrs[k].op == OP_LOAD_CONST ==> |instrs[k].operand| == 8
  }

  function ConstAt(instrs: seq<Instr>, k: nat): i64
    requires WholeConstants(instrs) && k < |instrs| && instrs[k].op == OP_LOAD_CONST
  {
    ReadI64(instrs[k].operand)
  }

  function Tail(flags: seq<bool>): seq<bool> {
    if flags == [] then [] else flags[1..]
  }

  predicate Head(flags: seq<bool>) {
    flags != [] && flags[0]
  }

  /** Two integer constants and a foldable operator stand at k. */
  predicate AtFold(instrs: seq<Instr>, k: nat, flags: seq<bool>) {
    && k + 2 < |instrs|
    && instrs[k].op == OP_LOAD_CONST && Head(flags)
    && instrs[k + 1].op == OP_LOAD_CONST && Head(Tail(flags))
    && IsFoldable(instrs[k + 2].op)
  }

  predicate AtDoubleNeg(instrs: seq<Instr>, k: nat) {
    k + 1 < |instrs| && instrs[k].op == OP_NEG && instrs[k + 1].op == OP_NEG
  }

  /** The pass from index k on; the flags say which of the remaining constants are integers. */
  function Optimize(instrs: seq<Instr>, k: nat, flags: seq<bool>): Option<seq<Instr>>
    requires WholeConstants(instrs)
    decreases |instrs| - k
  {
    if k >= |instrs| then Some([])
    else if AtFold(instrs, k, flags) then
      (match FoldIntBinop(instrs[k + 2].op, ConstAt(instrs, k), ConstAt(instrs, k + 1))
       case FoldPanics => None
       case NotFoldable => Keep(instrs[k], Optimize(instrs, k + 1, Tail(flags)))
       case Folded(v) => Keep(Instr(OP_LOAD_CONST, I64Le(v)), Optimize(instrs, k + 3, Tail(Tail(flags)))))
    else if AtDoubleNeg(instrs, k) then Optimize(instrs, k + 2, flags)
    else Keep(instrs[k], Optimize(instrs, k + 1, if instrs[k].op == OP_LOAD_CONST then Tail(flags) else flags))
  }

  method RunOptimize(instrs: seq<Instr>, flags: seq<bool>) returns (r: Option<seq<Instr>>)
    requires WholeConstants(instrs)
    ensures r == Optimize(instrs, 0, flags)
  {
    hide FoldIntBinop, IsFoldable, I64Le, ReadI64, Keep, Join;
    var out: seq<Instr> := [];
    var ints := flags;
    var k := 0;
    JoinLaws([]);
    while k < |instrs|
      invariant Optimize(instrs, 0, flags) == Join(out, Optimize(instrs, k, ints))
      decreases |instrs| - k
    {
      JoinLaws(out);
      JoinNone(out);
      var op := instrs[k].op;
      if op == OP_LOAD_CONST {
        var v := ReadI64(instrs[k].operand);
        var isInt := Head(ints);
        var rest := Tail(ints);
        if isInt && k + 2 < |instrs| && instrs[k + 1].op == OP_LOAD_CONST && Head(rest)
          && IsFoldable(instrs[k + 2].op) {
          var v2 := ReadI64(instrs[k + 1].operand);
          match FoldIntBinop(instrs[k + 2].op, v, v2) {
            case FoldPanics =>
              return None;
            case Folded(folded) =>
              ints := Tail(rest);
              out := out + [Instr(OP_LOAD_CONST, I64Le(folded))];
              k := k + 3;
              continue;
            case NotFoldable =>
          }
        }
        ints := rest;
        out := out + [instrs[k]];
        k := k + 1;
      } else if op == OP_NEG && k + 1 < |instrs| && instrs[k + 1].op == OP_NEG {
        k := k + 2;
      } else {
        out := out + [instrs[k]];
        k := k + 1;
      }
    }
    JoinEnd(out);
    r := Some(out);
  }

  /** The whole pass over a byte stream; None where the compiler panics. */
  function OptimizeBytes(bc: Bytes, flags: seq<bool>): Option<Bytes> {
    match DecodeBytecode(bc)
    case None => None
    case Some(instrs) =>
      if !WholeConstants(instrs) then None
      else
        match Optimize(instrs, 0, flags)
        case None => None
        case Some(out) => Some(Encode(out))
  }

  method RunPeephole(bc: Bytes, flags: seq<bool>) returns (r: Option<Bytes>)
    ensures r == OptimizeBytes(bc, flags)
  {
    var instrs := RunDecodeBytecode(bc);
    if instrs.None? || !WholeConstants(instrs.value) {
      return None;
    }
    var out := RunOptimize(instrs.value, flags);
    if out.None? {
      return None;
    }
    var bytes := RunEncode(out.value);
    r := Some(bytes);
  }
}
