/** Reads and successors told by membership (crates/glyim-borrowck/src/visitor.rs). */
module VisitorLaws {
  import opened Mir
  import opened Visitor
  import opened Wrappers

  predicate Takes(o: Operand, p: Place) {
    o == Copy(p) || o == Move(p)
  }

  predicate IsOperand(r: Rvalue, o: Operand) {
    match r
    case Use(x) => o == x
    case BinaryOp(_, x, y) => o == x || o == y
    case UnaryOp(_, x) => o == x
    case Aggregate(xs) => o in xs
    case Cast(x) => o == x
    case Repeat(x) => o == x
    case _ => false
  }

  /** The place is borrowed, or its tag or length asked for. */
  predicate LooksAt(r: Rvalue, p: Place) {
    (r.Ref? && r.borrowed == p) || ((r.Discriminant? || r.Len?) && r.place == p)
  }

  ghost predicate Evaluates(r: Rvalue, p: Place) {
    LooksAt(r, p) || exists o :: IsOperand(r, o) && Takes(o, p)
  }

  predicate IsTerminatorOperand(t: Terminator, o: Operand) {
    match t
    case SwitchInt(x, _, _, _) => o == x
    case Call(f, args, _, _, _) => o == f || o in args
    case Assert(x, _, _, _) => o == x
    case _ => false
  }

  ghost predicate TerminatorEvaluates(t: Terminator, p: Place) {
    exists o :: IsTerminatorOperand(t, o) && Takes(o, p)
  }

  lemma OperandReadsAre(o: Operand, p: Place)
    ensures p in OperandReads(o) <==> Takes(o, p)
  {
  }

  lemma {:induction false} OperandsReadsAre(os: seq<Operand>, p: Place)
    ensures p in OperandsReads(os) <==> exists o :: o in os && Takes(o, p)
    decreases |os|
  {
    hide OperandReads, Takes;
    if os != [] {
      OperandReadsAre(os[0], p);
      OperandsReadsAre(os[1..], p);
      assert os == [os[0]] + os[1..];
    }
  }

  /** A place is read by an rvalue exactly when it is an operand, borrowed or looked at. */
  lemma RvalueReadsAre(r: Rvalue, p: Place)
    ensures p in RvalueReads(r) <==> Evaluates(r, p)
  {
    hide OperandReads, Takes;
    match r {
      case BinaryOp(_, x, y) =>
        OperandReadsAre(x, p);
        OperandReadsAre(y, p);
        assert IsOperand(r, x) && IsOperand(r, y);
      case Aggregate(xs) =>
        OperandsReadsAre(xs, p);
        forall o
          ensures o in xs <==> IsOperand(r, o)
        {
        }
      case Use(x) =>
        OperandReadsAre(x, p);
        assert IsOperand(r, x);
      case UnaryOp(_, x) =>
        OperandReadsAre(x, p);
        assert IsOperand(r, x);
      case Cast(x) =>
        OperandReadsAre(x, p);
        assert IsOperand(r, x);
      case Repeat(x) =>
        OperandReadsAre(x, p);
        assert IsOperand(r, x);
      case _ =>
    }
  }

  /** And by a terminator when it is the function, an argument, the discriminant or the condition. */
  lemma TerminatorReadsAre(t: Terminator, p: Place)
    ensures p in TerminatorReads(t) <==> TerminatorEvaluates(t, p)
  {
    hide OperandReads, Takes;
    match t {
      case SwitchInt(x, _, _, _) =>
        OperandReadsAre(x, p);
        assert IsTerminatorOperand(t, x);
      case Call(f, args, _, _, _) =>
        OperandReadsAre(f, p);
        OperandsReadsAre(args, p);
        assert IsTerminatorOperand(t, f);
        forall o | o in args
          ensures IsTerminatorOperand(t, o)
        {
        }
      case Assert(x, _, _, _) =>
        OperandReadsAre(x, p);
        assert IsTerminatorOperand(t, x);
      case _ =>
    }
  }

  /** Control can go from the terminator to block b: by a jump, an arm, a return to it, or unwinding. */
  predicate GoesTo(t: Terminator, b: nat) {
    match t
    case Goto(x) => b == x
    case SwitchInt(_, _, arms, otherwise) => b == otherwise || exists arm :: arm in arms && arm.target == b
    case Return => false
    case Unreachable => false
    case Call(_, _, _, resume, cleanup) => (resume.Some? && b == resume.value) || (cleanup.Some? && b == cleanup.value)
    case Assert(_, _, x, cleanup) => b == x || (cleanup.Some? && b == cleanup.value)
    case Drop(_, x, cleanup) => b == x || (cleanup.Some? && b == cleanup.value)
  }

  lemma {:induction false} ArmTargetsAre(arms: seq<Arm>, b: nat)
    ensures b in ArmTargets(arms) <==> exists arm :: arm in arms && arm.target == b
    decreases |arms|
  {
    if arms != [] {
      ArmTargetsAre(arms[1..], b);
      assert arms == [arms[0]] + arms[1..];
    }
  }

  lemma SuccessorsAre(t: Terminator, b: nat)
    ensures b in Successors(t) <==> GoesTo(t, b)
  {
    if t.SwitchInt? {
      ArmTargetsAre(t.arms, b);
    }
  }
}
