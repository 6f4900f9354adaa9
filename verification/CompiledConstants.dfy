/** What the machine returns for a constant (crates/glyim-codegen/src/lib.rs, emit_operand). */
module CompiledConstants {
  import opened CodegenSpec
  import opened CompilerCorrectness
  import opened Int64
  import opened Mir
  import opened MirLaws
  import opened MirRun
  import opened Wire
  import opened Wrappers
  import V = VmSpec

  /** result := c; return. */
  function Constantly(c: MirConst): Body {
    Body([BasicBlock([Assign(Place(0, []), Use(Constant(c)))], Return)], [if c.CBool? then TBool else TInt])
  }

  lemma ConstantlyCode(c: MirConst)
    ensures ScalarBody(Constantly(c)) && |CodeOf(Constantly(c), 1)| == 20
  {
    var bb := Constantly(c).blocks[0];
    var s := bb.statements[0];
    ConstantBytes(c);
    assert bb.statements[1..] == [] && StatementsBytes([]) == [];
    assert |StatementBytes(s)| == 14;
    assert CodeOf(Constantly(c), 0) == [];
  }

  lemma ConstantlyRuns(c: MirConst) returns (n: i64)
    requires ScalarBody(Constantly(c))
    ensures Denotes(c, n) && MirEnds(Constantly(c), Ok(V.Int(n)))
  {
    var body := Constantly(c);
    var ss := body.blocks[0].statements;
    n := ConstValue(c);
    ConstantValue(c);
    assert Zeros(1) == [0] && [0][0 := n] == [n] && ss[1..] == [];
    assert ExecStatement(body, ss[0], [0]) == Ok([n]);
    assert ExecStatements(body, ss[1..], [n]) == Ok([n]);
    assert Run(body, Returned(n), 0) == Returned(n);
    assert Run(body, At(0, [0]), 1) == Returned(n);
  }

  /** The compiled body returns the number the constant denotes: 1 for true, 0 for false, and so on. */
  lemma ConstantReturned(c: MirConst) returns (n: i64)
    requires !c.CUnresolved?
    ensures ScalarBody(Constantly(c))
    ensures Denotes(c, n) && MachineEnds(Program(Constantly(c)), Ok(V.Int(n)))
  {
    hide MirEnds, MachineEnds, CodeOf, Denotes;
    ConstantlyCode(c);
    n := ConstantlyRuns(c);
    CompilerCorrect(Constantly(c), Ok(V.Int(n)));
  }
}
