/** What the peephole pass makes of a list, told place by place. */
module PassMeaning {
  import opened Int64
  import opened Wire
  import opened Wrappers
  import opened CodegenSpec
  import opened Peephole
  import opened Mir
  import MirRun

  /** How many constants are loaded ahead of k. */
  function Loads(instrs: seq<Instr>, k: nat): nat
    requires k <= |instrs|
  {
    if k == 0 then 0 else Loads(instrs, k - 1) + if instrs[k - 1].op == OP_LOAD_CONST then 1 else 0
  }

  /** A constant load whose flag, one per load in order, says it is an integer. */
  predicate Integer(instrs: seq<Instr>, flags: seq<bool>, k: nat) {
    k < |instrs| && instrs[k].op == OP_LOAD_CONST && Loads(instrs, k) < |flags| && flags[Loads(instrs, k)]
  }

  /** An operator of MIR has that opcode and gives v. */
  ghost predicate Gives(op: u8, a: i64, b: i64, v: i64) {
    exists o: BinOp :: BinOpcode(o) == op && MirRun.EvalBinary(o, a, b) == Ok(v)
  }

  /** Two integer constants and an operator that gives v of them. */
  ghost predicate Triple(instrs: seq<Instr>, flags: seq<bool>, k: nat, v: i64)
    requires WholeConstants(instrs)
  {
    && k + 2 < |instrs| && Integer(instrs, flags, k) && Integer(instrs, flags, k + 1)
    && Gives(instrs[k + 2].op, ConstAt(instrs, k), ConstAt(instrs, k + 1), v)
  }

  ghost predicate AnyTriple(instrs: seq<Instr>, flags: seq<bool>, k: int)
    requires WholeConstants(instrs)
  {
    k >= 0 && exists v :: Triple(instrs, flags, k, v)
  }

  /** How many negations in a row stand just ahead of k. */
  function NegsBefore(instrs: seq<Instr>, k: nat): nat
    requires k <= |instrs|
  {
    if k == 0 || instrs[k - 1].op != OP_NEG then 0 else 1 + NegsBefore(instrs, k - 1)
  }

  /**
  In place of the first of three such instructions stands one load, of the others nothing is left; of
  negations in a row the last is kept if their number is odd; everything else is kept.
  */
  ghost function Piece(instrs: seq<Instr>, flags: seq<bool>, k: nat): seq<Instr>
    requires WholeConstants(instrs) && k < |instrs|
  {
    if AnyTriple(instrs, flags, k) then
      var v :| Triple(instrs, flags, k, v);
      [Instr(OP_LOAD_CONST, I64Le(v))]
    else if AnyTriple(instrs, flags, k - 1) || AnyTriple(instrs, flags, k - 2) then []
    else if instrs[k].op != OP_NEG then [instrs[k]]
    else if NegsBefore(instrs, k) % 2 == 0 && !AtDoubleNeg(instrs, k) then [instrs[k]]
    else []
  }

  ghost function Pieces(instrs: seq<Instr>, flags: seq<bool>, k: nat): seq<Instr>
    requires WholeConstants(instrs)
    decreases |instrs| - k
  {
    if k >= |instrs| then [] else Piece(instrs, flags, k) + Pieces(instrs, flags, k + 1)
  }

  // ----- folding -----

  lemma FoldIs(op: u8, a: i64, b: i64)
    ensures forall v: i64 :: Gives(op, a, b, v) <==> IsFoldable(op) && FoldIntBinop(op, a, b) == Folded(v)
  {
    forall v: i64
      ensures Gives(op, a, b, v) <==> IsFoldable(op) && FoldIntBinop(op, a, b) == Folded(v)
    {
      if o: BinOp :| BinOpcode(o) == op && MirRun.EvalBinary(o, a, b) == Ok(v) {
        FoldOf(o, a, b);
      }
      if IsFoldable(op) && FoldIntBinop(op, a, b) == Folded(v) {
        var o := OperatorOf(op);
        FoldOf(o, a, b);
      }
    }
  }

  lemma OperatorOf(op: u8) returns (o: BinOp)
    requires IsFoldable(op)
    ensures BinOpcode(o) == op
  {
    o := if op == OP_ADD then Add else if op == OP_SUB then Sub else if op == OP_MUL then Mul
      else if op == OP_DIV then Div else if op == OP_REM then Rem else if op == OP_EQ then Eq
      else if op == OP_NE then Ne else if op == OP_LT then Lt else if op == OP_GT then Gt
      else if op == OP_LE then LtEq else if op == OP_GE then GtEq else if op == OP_AND then And
      else if op == OP_OR then Or else if op == OP_BITAND then BitAnd else if op == OP_BITOR then BitOr
      else if op == OP_BITXOR then BitXor else if op == OP_SHL then Shl else Shr;
  }

  lemma FoldOf(o: BinOp, a: i64, b: i64)
    ensures IsFoldable(BinOpcode(o))
    ensures MirRun.EvalBinary(o, a, b).Ok? <==> FoldIntBinop(BinOpcode(o), a, b).Folded?
    ensures MirRun.EvalBinary(o, a, b).Ok? ==>
              FoldIntBinop(BinOpcode(o), a, b).value == MirRun.EvalBinary(o, a, b).value
  {
    hide CheckedDiv, CheckedRem, Bitwise, Int64.Shl, Int64.Shr, Wrap, Bool;
  }

  // ----- the pass -----

  function Dropped(flags: seq<bool>, n: nat): seq<bool> {
    if n >= |flags| then [] else flags[n..]
  }

  lemma DroppedLaws(flags: seq<bool>, n: nat)
    ensures Tail(Dropped(flags, n)) == Dropped(flags, n + 1)
    ensures Head(Dropped(flags, n)) <==> n < |flags| && flags[n]
  {
  }

  /** Between two turns of the pass: no triple reaches over k, and negations just ahead of one come in pairs. */
  ghost predicate Between(instrs: seq<Instr>, flags: seq<bool>, k: nat)
    requires WholeConstants(instrs)
  {
    && k <= |instrs| && !AnyTriple(instrs, flags, k - 1) && !AnyTriple(instrs, flags, k - 2)
    && (k < |instrs| && instrs[k].op == OP_NEG ==> NegsBefore(instrs, k) % 2 == 0)
  }

  lemma TripleIsFold(instrs: seq<Instr>, flags: seq<bool>, k: nat)
    requires WholeConstants(instrs) && k <= |instrs|
    ensures var f := Dropped(flags, Loads(instrs, k));
            forall v :: Triple(instrs, flags, k, v) <==>
                          && AtFold(instrs, k, f)
                          && FoldIntBinop(instrs[k + 2].op, ConstAt(instrs, k), ConstAt(instrs, k + 1)) == Folded(v)
  {
    hide FoldIntBinop, IsFoldable, Gives;
    DroppedLaws(flags, Loads(instrs, k));
    DroppedLaws(flags, Loads(instrs, k) + 1);
    if k + 2 < |instrs| && instrs[k].op == OP_LOAD_CONST && instrs[k + 1].op == OP_LOAD_CONST {
      FoldIs(instrs[k + 2].op, ConstAt(instrs, k), ConstAt(instrs, k + 1));
      assert Loads(instrs, k + 1) == Loads(instrs, k) + 1;
    }
  }

  lemma NoTripleAt(instrs: seq<Instr>, flags: seq<bool>, k: int)
    requires WholeConstants(instrs)
    ensures 0 <= k < |instrs| && instrs[k].op != OP_LOAD_CONST ==> !AnyTriple(instrs, flags, k)
    ensures 0 <= k < |instrs| - 1 && instrs[k + 1].op != OP_LOAD_CONST ==> !AnyTriple(instrs, flags, k)
  {
  }

  lemma FoldTurn(instrs: seq<Instr>, flags: seq<bool>, k: nat, v: i64)
    requires WholeConstants(instrs) && Between(instrs, flags, k) && Triple(instrs, flags, k, v)
    requires forall w :: Triple(instrs, flags, k, w) ==> w == v
    ensures Between(instrs, flags, k + 3) && Loads(instrs, k + 3) == Loads(instrs, k) + 2
    ensures Pieces(instrs, flags, k) == [Instr(OP_LOAD_CONST, I64Le(v))] + Pieces(instrs, flags, k + 3)
  {
    hide Integer, I64Le, Loads;
    LoadsOn(instrs, k);
    LoadsOn(instrs, k + 1);
    LoadsOn(instrs, k + 2);
    OperatorIsNoLoad(instrs, flags, k, v);
    NoTripleAt(instrs, flags, k + 1);
    NoTripleAt(instrs, flags, k + 2);
    assert Piece(instrs, flags, k) == [Instr(OP_LOAD_CONST, I64Le(v))];
    assert AnyTriple(instrs, flags, k);
    assert Piece(instrs, flags, k + 1) == [] && Piece(instrs, flags, k + 2) == [];
    Nothing(instrs, flags, k + 2);
    Nothing(instrs, flags, k + 1);
  }

  lemma Nothing(instrs: seq<Instr>, flags: seq<bool>, k: nat)
    requires WholeConstants(instrs) && k < |instrs| && Piece(instrs, flags, k) == []
    ensures Pieces(instrs, flags, k) == Pieces(instrs, flags, k + 1)
  {
    hide Piece;
  }

  lemma LoadsOn(instrs: seq<Instr>, k: nat)
    requires k < |instrs|
    ensures Loads(instrs, k + 1) == Loads(instrs, k) + if instrs[k].op == OP_LOAD_CONST then 1 else 0
  {
  }

  lemma OperatorIsNoLoad(instrs: seq<Instr>, flags: seq<bool>, k: nat, v: i64)
    requires WholeConstants(instrs) && Triple(instrs, flags, k, v)
    ensures instrs[k].op == OP_LOAD_CONST && instrs[k + 1].op == OP_LOAD_CONST
    ensures instrs[k + 2].op != OP_LOAD_CONST && instrs[k + 2].op != OP_NEG
  {
    FoldIs(instrs[k + 2].op, ConstAt(instrs, k), ConstAt(instrs, k + 1));
  }

  lemma NegTurn(instrs: seq<Instr>, flags: seq<bool>, k: nat)
    requires WholeConstants(instrs) && Between(instrs, flags, k) && AtDoubleNeg(instrs, k)
    ensures Between(instrs, flags, k + 2) && Loads(instrs, k + 2) == Loads(instrs, k)
    ensures Pieces(instrs, flags, k) == Pieces(instrs, flags, k + 2)
  {
    hide Triple, Loads;
    LoadsOn(instrs, k);
    LoadsOn(instrs, k + 1);
    NoTripleAt(instrs, flags, k);
    NoTripleAt(instrs, flags, k + 1);
    assert NegsBefore(instrs, k + 1) == NegsBefore(instrs, k) + 1;
    assert NegsBefore(instrs, k + 2) == NegsBefore(instrs, k) + 2;
    assert Piece(instrs, flags, k) == [] && Piece(instrs, flags, k + 1) == [];
    Nothing(instrs, flags, k + 1);
    Nothing(instrs, flags, k);
  }

  lemma KeepTurn(instrs: seq<Instr>, flags: seq<bool>, k: nat)
    requires WholeConstants(instrs) && Between(instrs, flags, k) && k < |instrs|
    requires !AnyTriple(instrs, flags, k) && !AtDoubleNeg(instrs, k)
    ensures Between(instrs, flags, k + 1)
    ensures Pieces(instrs, flags, k) == [instrs[k]] + Pieces(instrs, flags, k + 1)
  {
    hide Triple;
  }

  /** One turn, as the three kinds of place have it. */
  lemma OneTurn(instrs: seq<Instr>, flags: seq<bool>, k: nat)
    requires WholeConstants(instrs) && k < |instrs|
    ensures var n := Loads(instrs, k);
            var r := Optimize(instrs, k, Dropped(flags, n));
            && (forall v :: Triple(instrs, flags, k, v) ==>
                  k + 3 <= |instrs| &&
                  r == Keep(Instr(OP_LOAD_CONST, I64Le(v)), Optimize(instrs, k + 3, Dropped(flags, n + 2))))
            && (!AnyTriple(instrs, flags, k) && AtDoubleNeg(instrs, k) ==>
                  r == Optimize(instrs, k + 2, Dropped(flags, n)))
            && (!AnyTriple(instrs, flags, k) && !AtDoubleNeg(instrs, k) && r.Some? ==>
                  r == Keep(instrs[k], Optimize(instrs, k + 1, Dropped(flags, Loads(instrs, k + 1)))))
  {
    hide FoldIntBinop, IsFoldable, Triple, I64Le, Loads, Dropped, Head, Tail;
    DroppedLaws(flags, Loads(instrs, k));
    DroppedLaws(flags, Loads(instrs, k) + 1);
    TripleIsFold(instrs, flags, k);
    LoadsOn(instrs, k);
  }

  lemma TripleOnly(instrs: seq<Instr>, flags: seq<bool>, k: nat, v: i64)
    requires WholeConstants(instrs) && Triple(instrs, flags, k, v)
    ensures k + 3 <= |instrs| && forall w :: Triple(instrs, flags, k, w) ==> w == v
  {
    TripleIsFold(instrs, flags, k);
  }

  lemma EndOfBetween(instrs: seq<Instr>, flags: seq<bool>, k: nat)
    requires WholeConstants(instrs) && Between(instrs, flags, k)
    ensures k <= |instrs| && (AtDoubleNeg(instrs, k) ==> k + 2 <= |instrs|)
    ensures forall f :: k == |instrs| ==> Optimize(instrs, k, f) == Some(Pieces(instrs, flags, k))
  {
  }

  /** The pass, where it does not panic, puts out exactly these pieces. */
  lemma {:induction false} PassIsFrom(instrs: seq<Instr>, flags: seq<bool>, k: nat)
    requires WholeConstants(instrs) && Between(instrs, flags, k)
    ensures var r := Optimize(instrs, k, Dropped(flags, Loads(instrs, k)));
            r.Some? ==> r.value == Pieces(instrs, flags, k)
    decreases |instrs| - k
  {
    hide Optimize, Triple, Pieces, I64Le, Loads, Dropped, Between, AtDoubleNeg, WholeConstants;
    EndOfBetween(instrs, flags, k);
    if k < |instrs| {
      OneTurn(instrs, flags, k);
      if AnyTriple(instrs, flags, k) {
        var v :| Triple(instrs, flags, k, v);
        TripleOnly(instrs, flags, k, v);
        FoldTurn(instrs, flags, k, v);
        PassIsFrom(instrs, flags, k + 3);
      } else if AtDoubleNeg(instrs, k) {
        NegTurn(instrs, flags, k);
        PassIsFrom(instrs, flags, k + 2);
      } else {
        KeepTurn(instrs, flags, k);
        PassIsFrom(instrs, flags, k + 1);
      }
    }
  }

  lemma PassIs(instrs: seq<Instr>, flags: seq<bool>)
    requires WholeConstants(instrs)
    ensures Optimize(instrs, 0, flags).Some? ==> Optimize(instrs, 0, flags) == Some(Pieces(instrs, flags, 0))
  {
    hide Optimize, Pieces;
    assert Dropped(flags, 0) == flags;
    PassIsFrom(instrs, flags, 0);
  }
}
