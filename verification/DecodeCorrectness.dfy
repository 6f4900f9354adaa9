/**
Decoding and encoding undo each other where the decoder's width table is right; the operands it reads
again survive exactly when the bytes there repeat (crates/glyim-codegen/src/lib.rs).
*/
module DecodeCorrectness {
  import opened Int64
  import opened Wire
  import opened Wrappers
  import opened CodegenSpec
  import opened Peephole

  // ----- decode and encode -----

  /** The bytes an instruction of a decoded list stands for. */
  predicate Sized(i: Instr) {
    FixedWidth(i.op) && |i.operand| == Width(i.op)
  }

  lemma {:induction false} EncodeAppend(a: seq<Instr>, b: seq<Instr>)
    ensures Encode(a + b) == Encode(a) + Encode(b)
  {
    if a == [] {
      assert a + b == b;
    } else {
      assert (a + b)[0] == a[0] && (a + b)[1..] == a[1..] + b;
      EncodeAppend(a[1..], b);
    }
  }

  /** Decoding the encoding of fixed-width instructions gives them back. */
  lemma {:induction false} DecodeEncode(instrs: seq<Instr>)
    requires forall i <- instrs :: Sized(i)
    ensures DecodeBytecode(Encode(instrs)) == Some(instrs)
  {
    DecodeEncodeFrom([], instrs);
    assert [] + Encode(instrs) == Encode(instrs);
  }

  lemma {:induction false} DecodeEncodeFrom(before: Bytes, instrs: seq<Instr>)
    requires forall i <- instrs :: Sized(i)
    ensures DecodeFrom(before + Encode(instrs), |before|) == Some(instrs)
    decreases |instrs|
  {
    hide DecodeOperand, Encode, Sized;
    EncodeNone();
    if instrs != [] {
      var i, rest := instrs[0], instrs[1..];
      assert instrs == [i] + rest && i in instrs;
      var first := [i.op] + i.operand;
      EncodeAppend([i], rest);
      EncodeOne(i);
      var bc := before + (first + Encode(rest));
      assert bc == (before + first) + Encode(rest);
      FixedOperand(before, i, Encode(rest));
      DecodeEncodeFrom(before + first, rest);
    }
  }

  lemma EncodeNone()
    ensures Encode([]) == []
  {
  }

  lemma FixedOperand(before: Bytes, i: Instr, after: Bytes)
    requires Sized(i)
    ensures var bc := before + ([i.op] + i.operand + after);
            && bc[|before|] == i.op
            && DecodeOperand(bc, |before| + 1, i.op) == Some((i.operand, |i.operand|))
  {
    var bc := before + ([i.op] + i.operand + after);
    assert bc[|before| + 1..|before| + 1 + |i.operand|] == i.operand;
  }

  // ----- what the decoder keeps -----

  /** The operand decoded at i is the bytes it moves over, cut off at the end of the code. */
  predicate Covers(bc: Bytes, i: nat, operand: Bytes, consumed: nat)
    requires i <= |bc|
  {
    operand == if i + consumed <= |bc| then bc[i..i + consumed] else bc[i..]
  }

  /** The n bytes at `at` are the first n operand bytes, which is what the decoder puts there. */
  predicate Repeats(bc: Bytes, i: nat, at: nat, n: nat) {
    i <= at && at + n <= |bc| && bc[at..at + n] == bc[i..i + n]
  }

  /** Each of n pairs from `at` on repeats the first twelve operand bytes. */
  predicate PairsRepeat(bc: Bytes, i: nat, at: nat, n: nat) {
    forall k :: 0 <= k < n ==> Repeats(bc, i, PairAt(at, k), 12)
  }

  function PairAt(at: nat, k: nat): nat {
    at + 12 * k
  }

  /** Where the code ends before the four bytes of a count there is nothing to read again. */
  predicate CountCut(bc: Bytes, i: nat) {
    |bc| < i + 4
  }

  /** The instruction whose operand starts at i survives: what the decoder reads again, repeats. */
  predicate Survives(bc: Bytes, i: nat, op: u8)
    requires i <= |bc|
  {
    if op == OP_ASSERT then i == |bc| || Repeats(bc, i, i + 1, 4)
    else if op == OP_SWITCH_INT then
      CountCut(bc, i) ||
      var n: nat := ReadU32(bc[i..i + 4]);
      PairsRepeat(bc, i, i + 4, n) && Repeats(bc, i, PairAt(i + 4, n), 4)
    else if op == OP_CALL || op == OP_CALL_INDIRECT then
      CountCut(bc, i) ||
      match DecodeInner(bc, i, ReadU32(bc[i..i + 4]), bc[i..i + 4], 4)
      case None => true
      case Some((_, arguments)) => Repeats(bc, i, i + arguments, 8)
    else true
  }

  lemma {:induction false} InnerCovers(bc: Bytes, i: nat, count: nat, v: Bytes, consumed: nat)
    requires i <= |bc| && consumed > 0 && i + consumed <= |bc| && v == bc[i..i + consumed]
    requires DecodeInner(bc, i, count, v, consumed).Some?
    ensures var (w, c) := DecodeInner(bc, i, count, v, consumed).value;
            consumed <= c && i + c <= |bc| && w == bc[i..i + c]
    decreases count
  {
    if count > 0 && i + consumed < |bc| {
      var inner := DecodeBytecode(bc[i + consumed..]).value;
      if inner != [] {
        var used := 1 + |inner[0].operand|;
        InnerCovers(bc, i, count - 1, v + bc[i + consumed..i + consumed + used], consumed + used);
      }
    }
  }

  lemma AssertCovers(bc: Bytes, i: nat)
    requires i <= |bc|
    ensures var (v, c) := DecodeOperand(bc, i, OP_ASSERT).value; Covers(bc, i, v, c) <==> Survives(bc, i, OP_ASSERT)
  {
    var a, b := Take(bc, i, 1), Take(bc, i, 4);
    if i + 5 <= |bc| {
      assert bc[i..i + 5] == a + bc[i + 1..i + 5];
      assert (a + b)[1..] == b && bc[i..i + 5][1..] == bc[i + 1..i + 5];
    }
  }

  lemma {:induction false} PairsLength(bc: Bytes, i: nat, n: nat)
    requires i <= |bc| < i + 12
    ensures n > 0 ==> |RepeatedPairs(bc, i, n)| >= |bc| - i
  {
  }

  /** The repeated pairs are the bytes from `at` on just if each pair there repeats. */
  lemma {:induction false} PairsCover(bc: Bytes, i: nat, at: nat, n: nat)
    requires i + 12 <= |bc| && i <= at && PairAt(at, n) <= |bc|
    ensures |RepeatedPairs(bc, i, n)| == 12 * n
    ensures RepeatedPairs(bc, i, n) == bc[at..PairAt(at, n)] <==> PairsRepeat(bc, i, at, n)
  {
    if n > 0 {
      PairsCover(bc, i, at, n - 1);
      var from, to := PairAt(at, n - 1), PairAt(at, n);
      var before, last := RepeatedPairs(bc, i, n - 1), Take(bc, i, 12);
      assert bc[at..to] == bc[at..from] + bc[from..to];
      assert before + last == bc[at..to] <==> before == bc[at..from] && last == bc[from..to] by {
        assert (before + last)[..|before|] == before && (before + last)[|before|..] == last;
        assert bc[at..to][..|before|] == bc[at..from] && bc[at..to][|before|..] == bc[from..to];
      }
      assert last == bc[from..to] <==> Repeats(bc, i, from, 12);
      assert PairsRepeat(bc, i, at, n) <==> PairsRepeat(bc, i, at, n - 1) && Repeats(bc, i, from, 12);
    }
  }

  /** Three pieces of fixed lengths agree with a range of bytes just if each agrees with its part. */
  lemma ThreeParts(bc: Bytes, i: nat, a: nat, b: nat, j: nat, x: Bytes, y: Bytes, z: Bytes)
    requires i <= a <= b <= j <= |bc| && x == bc[i..a] && |y| == b - a && |z| == j - b
    ensures x + y + z == bc[i..j] <==> y == bc[a..b] && z == bc[b..j]
  {
    var all := x + y + z;
    assert all[..a - i] == x && all[a - i..b - i] == y && all[b - i..] == z;
    var whole := bc[i..j];
    assert whole[..a - i] == bc[i..a] && whole[a - i..b - i] == bc[a..b] && whole[b - i..] == bc[b..j];
    assert whole == whole[..a - i] + whole[a - i..b - i] + whole[b - i..];
  }

  lemma SwitchCovers(bc: Bytes, i: nat)
    requires i <= |bc|
    ensures var (v, c) := DecodeOperand(bc, i, OP_SWITCH_INT).value;
            Covers(bc, i, v, c) <==> Survives(bc, i, OP_SWITCH_INT)
  {
    hide ReadU32;
    if !CountCut(bc, i) {
      var cnt := Take(bc, i, 4);
      var n: nat := ReadU32(cnt);
      var pairs := RepeatedPairs(bc, i, n);
      var end := PairAt(i + 4, n);
      if i + 12 > |bc| {
        PairsLength(bc, i, n);
      } else {
        PairsSize(bc, i, n);
      }
      assert n > 0 && i + 12 > |bc| ==> !Repeats(bc, i, PairAt(i + 4, 0), 12);
      if end + 4 <= |bc| && (n == 0 || i + 12 <= |bc|) {
        if n > 0 {
          PairsCover(bc, i, i + 4, n);
        }
        ThreeParts(bc, i, i + 4, end, end + 4, cnt, pairs, cnt);
      }
    }
  }

  lemma {:induction false} PairsSize(bc: Bytes, i: nat, n: nat)
    requires i + 12 <= |bc|
    ensures |RepeatedPairs(bc, i, n)| == 12 * n
  {
    if n > 0 {
      PairsSize(bc, i, n - 1);
    }
  }

  lemma CallCovers(bc: Bytes, i: nat, op: u8)
    requires i <= |bc| && (op == OP_CALL || op == OP_CALL_INDIRECT) && DecodeOperand(bc, i, op).Some?
    ensures var (v, c) := DecodeOperand(bc, i, op).value; Covers(bc, i, v, c) <==> Survives(bc, i, op)
  {
    hide ReadU32, DecodeInner;
    if !CountCut(bc, i) {
      var cnt := Take(bc, i, 4);
      InnerCovers(bc, i, ReadU32(cnt), cnt, 4);
      var (v, c) := DecodeInner(bc, i, ReadU32(cnt), cnt, 4).value;
      var again := Take(bc, i, 8);
      if i + c + 8 <= |bc| {
        var none: Bytes := [];
        assert v + none == v;
        ThreeParts(bc, i, i + c, i + c, i + c + 8, v, none, again);
      }
    }
  }

  /** An operand is kept exactly when the instruction survives. */
  lemma OperandExact(bc: Bytes, i: nat, op: u8)
    requires i <= |bc| && DecodeOperand(bc, i, op).Some?
    ensures var (v, c) := DecodeOperand(bc, i, op).value; Covers(bc, i, v, c) <==> Survives(bc, i, op)
  {
    hide Covers;
    if op == OP_ASSERT {
      AssertCovers(bc, i);
    } else if op == OP_SWITCH_INT {
      SwitchCovers(bc, i);
    } else if op == OP_CALL || op == OP_CALL_INDIRECT {
      CallCovers(bc, i, op);
    } else {
      PlainCovers(bc, i, op);
    }
  }

  lemma PlainCovers(bc: Bytes, i: nat, op: u8)
    requires i <= |bc| && (FixedWidth(op) || op == OP_AGGREGATE) && DecodeOperand(bc, i, op).Some?
    ensures var (v, c) := DecodeOperand(bc, i, op).value; Covers(bc, i, v, c)
  {
    if op == OP_AGGREGATE {
      var cnt := Take(bc, i, 4);
      if |cnt| == 4 {
        InnerCovers(bc, i, ReadU32(cnt), cnt, 4);
      }
    }
  }

  /** The decoder moves over as many bytes as it puts out, except past the end of the code. */
  lemma OperandSize(bc: Bytes, i: nat, op: u8)
    requires i <= |bc| && DecodeOperand(bc, i, op).Some?
    ensures var (v, c) := DecodeOperand(bc, i, op).value; |v| == c || i + c > |bc|
  {
    hide ReadU32, DecodeInner;
    if HasInner(op) && |Take(bc, i, 4)| == 4 {
      InnerCovers(bc, i, ReadU32(Take(bc, i, 4)), Take(bc, i, 4), 4);
    }
  }

  /** Every instruction decoded at top level, from i on, survives. */
  predicate AllSurvive(bc: Bytes, i: nat)
    decreases if i < |bc| then |bc| - i else 0
  {
    i >= |bc| ||
    match DecodeOperand(bc, i + 1, bc[i])
    case None => true
    case Some((_, consumed)) => Survives(bc, i + 1, bc[i]) && AllSurvive(bc, i + 1 + consumed)
  }

  lemma HeadAndRest(bc: Bytes, i: nat, j: nat, operand: Bytes, rest: Bytes)
    requires i < j <= |bc| && |operand| == j - i - 1
    ensures [bc[i]] + operand + rest == bc[i..] <==> operand == bc[i + 1..j] && rest == bc[j..]
  {
    var all := [bc[i]] + operand + rest;
    assert all[1..j - i] == operand && all[j - i..] == rest;
    assert bc[i..][1..j - i] == bc[i + 1..j] && bc[i..][j - i..] == bc[j..];
    assert bc[i..] == [bc[i]] + bc[i + 1..j] + bc[j..];
  }

  /**
  Encoding what was decoded gives the bytes back if and only if every assert, switch and call decoded
  at top level survives; other instructions always do, aggregates with whatever they nest included.
  */
  lemma {:induction false} EncodeDecode(bc: Bytes, i: nat)
    requires i <= |bc| && DecodeFrom(bc, i).Some?
    ensures Encode(DecodeFrom(bc, i).value) == bc[i..] <==> AllSurvive(bc, i)
    decreases |bc| - i
  {
    hide DecodeOperand, Survives;
    EncodeNone();
    if i < |bc| {
      var (operand, consumed) := DecodeOperand(bc, i + 1, bc[i]).value;
      var j := i + 1 + consumed;
      var first, rest := Instr(bc[i], operand), DecodeFrom(bc, j).value;
      assert DecodeFrom(bc, i) == Some([first] + rest);
      OperandExact(bc, i + 1, bc[i]);
      OperandSize(bc, i + 1, bc[i]);
      EncodeAppend([first], rest);
      EncodeOne(first);
      if j <= |bc| {
        EncodeDecode(bc, j);
        HeadAndRest(bc, i, j, operand, Encode(rest));
      } else {
        assert rest == [];
        assert bc[i..] == [bc[i]] + bc[i + 1..];
        assert [bc[i]] + operand == bc[i..] <==> operand == bc[i + 1..];
      }
    }
  }

  lemma EncodeOne(i: Instr)
    ensures Encode([i]) == [i.op] + i.operand
  {
    assert [i][1..] == [];
    assert Encode([i][1..]) == [];
  }

  // ----- single instructions -----

  /** One instruction that fills the code decodes to itself or not just as its operand survives. */
  lemma AloneExact(bc: Bytes)
    requires bc != [] && DecodeOperand(bc, 1, bc[0]).Some? && DecodeOperand(bc, 1, bc[0]).value.1 + 1 >= |bc|
    ensures DecodeBytecode(bc).Some?
    ensures Encode(DecodeBytecode(bc).value) == bc <==> Survives(bc, 1, bc[0])
  {
    hide DecodeOperand, Survives;
    var j := 1 + DecodeOperand(bc, 1, bc[0]).value.1;
    assert DecodeFrom(bc, j) == Some([]) && AllSurvive(bc, j);
    EncodeDecode(bc, 0);
    assert bc[0..] == bc;
  }

  /** An assert survives the decoder exactly when its five operand bytes are all equal. */
  lemma AssertExact(e: u8, target: u32)
    ensures var bc := [OP_ASSERT, e] + U32Le(target);
            && DecodeBytecode(bc).Some?
            && (Encode(DecodeBytecode(bc).value) == bc <==> U32Le(target) == [e, e, e, e])
  {
    var t := U32Le(target);
    var bc := [OP_ASSERT, e] + t;
    AloneExact(bc);
    var x, y := bc[2..6], bc[1..5];
    assert x == t && y == [e, t[0], t[1], t[2]];
    if x == y {
      assert x[0] == y[0] && x[1] == y[1] && x[2] == y[2] && x[3] == y[3];
    }
  }

  /** A pair of a switch: eight bytes of value and four of target. */
  function PairBytes(pairs: Bytes, k: nat): Bytes
    requires 12 * k + 12 <= |pairs|
  {
    pairs[12 * k..12 * k + 12]
  }

  /** A switch survives exactly when each pair is the first twelve operand bytes and the default is the count. */
  lemma SwitchExact(n: u32, pairs: Bytes, otherwise: Bytes)
    requires |pairs| == 12 * n && |otherwise| == 4
    ensures var operand := U32Le(n) + pairs + otherwise;
            var bc := [OP_SWITCH_INT] + operand;
            && DecodeBytecode(bc).Some?
            && (Encode(DecodeBytecode(bc).value) == bc <==>
                otherwise == U32Le(n) && forall k :: 0 <= k < n ==> PairBytes(pairs, k) == operand[..12])
  {
    hide DecodeOperand, Survives;
    var operand := U32Le(n) + pairs + otherwise;
    var bc := [OP_SWITCH_INT] + operand;
    SwitchConsumes(bc, n);
    AloneExact(bc);
    SwitchSurvives(bc, n, pairs, otherwise);
  }

  lemma SwitchConsumes(bc: Bytes, n: u32)
    requires |bc| == 9 + 12 * n && bc[1..5] == U32Le(n)
    ensures DecodeOperand(bc, 1, OP_SWITCH_INT).Some?
    ensures DecodeOperand(bc, 1, OP_SWITCH_INT).value.1 == |bc| - 1
  {
    U32RoundTrip(n);
    if n > 0 {
      PairsSize(bc, 1, n);
    }
  }

  lemma SwitchSurvives(bc: Bytes, n: u32, pairs: Bytes, otherwise: Bytes)
    requires |pairs| == 12 * n && |otherwise| == 4 && bc == [OP_SWITCH_INT] + (U32Le(n) + pairs + otherwise)
    ensures Survives(bc, 1, OP_SWITCH_INT) <==>
            otherwise == U32Le(n) && forall k :: 0 <= k < n ==> PairBytes(pairs, k) == bc[1..][..12]
  {
    hide ReadU32;
    U32RoundTrip(n);
    assert bc[1..5] == U32Le(n);
    var end := PairAt(5, n);
    assert bc[end..end + 4] == otherwise;
    forall k | 0 <= k < n
      ensures Repeats(bc, 1, PairAt(5, k), 12) <==> PairBytes(pairs, k) == bc[1..][..12]
    {
      assert bc[PairAt(5, k)..PairAt(5, k) + 12] == PairBytes(pairs, k);
      assert bc[1..][..12] == bc[1..13];
    }
  }

  /** The bytes of a call: count, argument instructions, then destination and target. */
  predicate CallBytes(bc: Bytes, op: u8, arguments: seq<Instr>, tail: Bytes) {
    && (op == OP_CALL || op == OP_CALL_INDIRECT)
    && |tail| == 8 && |arguments| <= 0xFFFF_FFFF && (forall a <- arguments :: Sized(a))
    && bc == [op] + (U32Le(|arguments|) + Encode(arguments) + tail)
  }

  /** A call survives exactly when its eight trailing bytes are the first eight operand bytes. */
  lemma CallExact(bc: Bytes, op: u8, arguments: seq<Instr>, tail: Bytes)
    requires CallBytes(bc, op, arguments, tail) && DecodeBytecode(bc).Some?
    ensures Encode(DecodeBytecode(bc).value) == bc <==> tail == bc[1..][..8]
  {
    hide DecodeOperand, Survives, CallBytes, Encode;
    CallHead(bc, op, arguments, tail);
    CallConsumes(bc, op, arguments, tail);
    AloneExact(bc);
    CallSurvives(bc, op, arguments, tail);
  }

  lemma {:induction false} InnerOfSized(bc: Bytes, i: nat, v: Bytes, consumed: nat, arguments: seq<Instr>, tail: Bytes)
    requires consumed > 0 && i + consumed <= |bc| && bc[i + consumed..] == Encode(arguments) + tail && tail != []
    requires forall a <- arguments :: Sized(a)
    requires DecodeInner(bc, i, |arguments|, v, consumed).Some?
    ensures DecodeInner(bc, i, |arguments|, v, consumed).value.1 == consumed + |Encode(arguments)|
    decreases |arguments|
  {
    hide Sized, Encode, DecodeFrom, DecodeOperand;
    EncodeNone();
    if arguments != [] {
      var a, rest := arguments[0], arguments[1..];
      assert arguments == [a] + rest && a in arguments;
      EncodeAppend([a], rest);
      EncodeOne(a);
      var suffix, used := bc[i + consumed..], 1 + |a.operand|;
      FirstDecoded(suffix, a, Encode(rest) + tail);
      assert bc[i + consumed + used..] == suffix[used..] == Encode(rest) + tail;
      InnerOfSized(bc, i, v + bc[i + consumed..i + consumed + used], consumed + used, rest, tail);
    }
  }

  lemma FirstDecoded(bc: Bytes, a: Instr, after: Bytes)
    requires Sized(a) && bc == [a.op] + a.operand + after
    ensures DecodeBytecode(bc).Some? ==> DecodeBytecode(bc).value != [] && DecodeBytecode(bc).value[0] == a
    ensures bc[1 + |a.operand|..] == after
  {
    hide DecodeOperand, Sized;
    var none: Bytes := [];
    assert bc == none + ([a.op] + a.operand + after);
    FixedOperand(none, a, after);
  }

  lemma CallArguments(bc: Bytes, op: u8, arguments: seq<Instr>, tail: Bytes)
    requires CallBytes(bc, op, arguments, tail) && DecodeOperand(bc, 1, op).Some?
    ensures bc[1..5] == U32Le(|arguments|) && ReadU32(bc[1..5]) == |arguments|
    ensures DecodeInner(bc, 1, |arguments|, bc[1..5], 4).Some?
    ensures DecodeInner(bc, 1, |arguments|, bc[1..5], 4).value.1 == 4 + |Encode(arguments)|
    ensures DecodeOperand(bc, 1, op).value.1 == |bc| - 1
  {
    hide ReadU32, DecodeInner, Encode, Sized;
    U32RoundTrip(|arguments|);
    assert bc[1..5] == U32Le(|arguments|);
    assert bc[5..] == Encode(arguments) + tail;
    InnerOfSized(bc, 1, bc[1..5], 4, arguments, tail);
  }

  lemma CallConsumes(bc: Bytes, op: u8, arguments: seq<Instr>, tail: Bytes)
    requires CallBytes(bc, op, arguments, tail) && DecodeBytecode(bc).Some?
    ensures DecodeOperand(bc, 1, op).Some? && DecodeOperand(bc, 1, op).value.1 == |bc| - 1
  {
    hide DecodeOperand, CallBytes;
    assert bc != [] && bc[0] == op by { CallHead(bc, op, arguments, tail); }
    assert DecodeFrom(bc, 0).Some?;
    CallArguments(bc, op, arguments, tail);
  }

  lemma CallHead(bc: Bytes, op: u8, arguments: seq<Instr>, tail: Bytes)
    requires CallBytes(bc, op, arguments, tail)
    ensures bc != [] && bc[0] == op
  {
  }

  lemma CallSurvives(bc: Bytes, op: u8, arguments: seq<Instr>, tail: Bytes)
    requires CallBytes(bc, op, arguments, tail) && DecodeOperand(bc, 1, op).Some?
    ensures Survives(bc, 1, op) <==> tail == bc[1..][..8]
  {
    hide ReadU32, DecodeInner, Encode, Sized, DecodeOperand;
    CallArguments(bc, op, arguments, tail);
    var at := 5 + |Encode(arguments)|;
    assert bc[at..at + 8] == tail && bc[1..][..8] == bc[1..9];
  }
}
